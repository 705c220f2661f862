/**
 The single-producer single-consumer ring of src/platform/packet_queue.c and
 src/platform/decode_queue.c, one step per atomic access and per word copied.
 Words stand for packet bytes or 16-bit samples.
 */
module Spsc {
  import opened Arithmetic

  const MAX_CAPACITY: nat := 8

  datatype Item = Item(words: seq<int>, sequence: nat)

  datatype Slot = Slot(words: seq<int>, length: nat, sequence: nat)

  datatype Ring = Ring(slots: seq<Slot>, size: nat, producer: nat, consumer: nat, maximum: nat, dropped: nat) {
    predicate Sized() {
      2 <= |slots| <= MAX_CAPACITY + 1 && forall i | 0 <= i < |slots| :: |slots[i].words| == size
    }
  }

  predicate Pushable(r: Ring, item: Item) {
    0 < |item.words| <= r.size
  }

  function Succ(r: Ring, i: nat): nat
    requires |r.slots| > 0
  {
    (i + 1) % |r.slots|
  }

  function Depth(producer: nat, consumer: nat, slots: nat): nat
    requires consumer <= slots
  {
    if producer >= consumer then producer - consumer else slots - consumer + producer
  }

  // ---------------------------------------------------------------- producer

  datatype Producer =
    | PRest
    | PBegan(item: Item)
    | POwn(item: Item, own: nat)
    | PBoth(item: Item, own: nat, other: nat)
    | PDropping
    | PFilling(item: Item, own: nat, other: nat, done: nat)
    | PPublished(depth: nat)
    | PRaising(depth: nat, maximum: nat)

  /** Stores of one slot: the words, then length and sequence. */
  function Stores(item: Item): nat {
    |item.words| + 2
  }

  function Store(s: Slot, item: Item, k: nat): (t: Slot)
    requires k < Stores(item) && |item.words| <= |s.words|
    ensures |t.words| == |s.words|
  {
    if k < |item.words| then s.(words := s.words[k := item.words[k]])
    else if k == |item.words| then s.(length := |item.words|)
    else s.(sequence := item.sequence)
  }

  predicate ProducerFits(r: Ring, p: Producer) {
    match p
    case PFilling(item, own, other, done) => Pushable(r, item) && own < |r.slots| && other <= |r.slots| && done <= Stores(item)
    case PBoth(item, own, other) => Pushable(r, item) && own < |r.slots|
    case POwn(item, own) => Pushable(r, item) && own < |r.slots|
    case PBegan(item) => Pushable(r, item)
    case _ => true
  }

  /** The producer's next step; `weak` makes a compare-and-swap fail for no reason. */
  function ProducerStep(r: Ring, p: Producer, weak: bool): (Ring, Producer)
    requires r.Sized() && ProducerFits(r, p)
  {
    match p
    case PRest => (r, p)
    case PBegan(item) => (r, POwn(item, r.producer))
    case POwn(item, own) => (r, PBoth(item, own, r.consumer))
    case PBoth(item, own, other) => if Succ(r, own) == other then (r, PDropping) else (r, PFilling(item, own, other, 0))
    case PDropping => (r.(dropped := r.dropped + 1), PRest)
    case PFilling(item, own, other, done) =>
      if done < Stores(item) then
        (r.(slots := r.slots[own := Store(r.slots[own], item, done)]), PFilling(item, own, other, done + 1))
      else
        (r.(producer := Succ(r, own)), PPublished(Depth(Succ(r, own), other, |r.slots|)))
    case PPublished(depth) => (r, PRaising(depth, r.maximum))
    case PRaising(depth, maximum) =>
      if depth <= maximum then (r, PRest)
      else if r.maximum == maximum && !weak then (r.(maximum := depth), PRest)
      else (r, PRaising(depth, r.maximum))
  }

  // ---------------------------------------------------------------- consumer

  datatype Consumer =
    | CRest
    | COwn(own: nat)
    | CPeeked(own: nat)
    | CReading(own: nat, length: nat, words: seq<int>)
    | CHeld(own: nat, item: Item)
    | CLeaving(own: nat)

  predicate ConsumerFits(r: Ring, c: Consumer) {
    match c
    case CRest => true
    case CReading(own, length, words) => own < |r.slots| && length <= r.size && |words| <= length
    case _ => c.own < |r.slots|
  }

  /** The consumer's next step; with `leave` it discards what it peeked at. */
  function ConsumerStep(r: Ring, c: Consumer, leave: bool): (Ring, Consumer)
    requires r.Sized() && ConsumerFits(r, c)
  {
    match c
    case CRest => (r, COwn(r.consumer))
    case COwn(own) => if own == r.producer then (r, CRest) else (r, CPeeked(own))
    case CPeeked(own) => if leave then (r, CLeaving(own)) else (r, CReading(own, r.slots[own].length, []))
    case CReading(own, length, words) =>
      if |words| < length && |words| < |r.slots[own].words| then (r, CReading(own, length, words + [r.slots[own].words[|words|]]))
      else (r, CHeld(own, Item(words, r.slots[own].sequence)))
    case CHeld(own, item) => (r, CLeaving(own))
    case CLeaving(own) => if r.consumer == r.producer then (r, CRest) else (r.(consumer := Succ(r, r.consumer)), CRest)
  }

  // ---------------------------------------------------------------- system

  /** `pushed` lists every item published; `taken` counts discards; `attempts` counts finished pushes. */
  datatype System = System(ring: Ring, p: Producer, c: Consumer, pushed: seq<Item>, taken: nat, attempts: nat)

  /** A push of an illegal length returns at once and counts nowhere. */
  datatype Event = Push(item: Item) | Produce(weak: bool) | Consume(leave: bool)

  predicate Fits(s: System) {
    s.ring.Sized() && ProducerFits(s.ring, s.p) && ConsumerFits(s.ring, s.c)
  }

  predicate Possible(s: System, e: Event) {
    e.Push? ==> s.p.PRest?
  }

  function AfterProduce(s: System, weak: bool): System
    requires Fits(s)
  {
    var step := ProducerStep(s.ring, s.p, weak);
    s.(ring := step.0, p := step.1,
       pushed := if s.p.PFilling? && step.1.PPublished? then s.pushed + [s.p.item] else s.pushed,
       attempts := if (s.p.PFilling? && step.1.PPublished?) || s.p.PDropping? then s.attempts + 1 else s.attempts)
  }

  function AfterConsume(s: System, leave: bool): System
    requires Fits(s)
  {
    var step := ConsumerStep(s.ring, s.c, leave);
    s.(ring := step.0, c := step.1, taken := if step.0.consumer != s.ring.consumer then s.taken + 1 else s.taken)
  }

  function After(s: System, e: Event): System
    requires Fits(s) && Possible(s, e)
  {
    match e
    case Push(item) => if Pushable(s.ring, item) then s.(p := PBegan(item)) else s
    case Produce(weak) => AfterProduce(s, weak)
    case Consume(leave) => AfterConsume(s, leave)
  }

  // ---------------------------------------------------------------- invariant

  function Slots(s: System): nat {
    |s.ring.slots|
  }

  predicate Holds(slot: Slot, item: Item) {
    && slot.length == |item.words| <= |slot.words| && slot.sequence == item.sequence
    && slot.words[..|item.words|] == item.words
  }

  /** Item i, counted from the first ever pushed, is in its slot. */
  predicate Stored(s: System, i: nat)
    requires s.ring.Sized() && i < |s.pushed|
  {
    Holds(s.ring.slots[i % Slots(s)], s.pushed[i])
  }

  predicate Counters(s: System)
    requires s.ring.Sized()
  {
    && s.taken <= |s.pushed| <= s.taken + Slots(s) - 1
    && s.ring.producer == |s.pushed| % Slots(s) && s.ring.consumer == s.taken % Slots(s)
    && s.attempts == |s.pushed| + s.ring.dropped
  }

  /** A consumer index loaded earlier: it was right after some discard `base`, since when nothing was pushed beyond capacity. */
  predicate Loaded(s: System, other: nat, base: nat)
    requires s.ring.Sized()
  {
    base <= s.taken && |s.pushed| <= base + Slots(s) - 1 && other == base % Slots(s)
  }

  predicate PartlyStored(slot: Slot, item: Item, k: nat) {
    && |item.words| <= |slot.words|
    && (forall j | 0 <= j < |item.words| && j < k :: slot.words[j] == item.words[j])
    && (k > |item.words| ==> slot.length == |item.words|)
    && (k > |item.words| + 1 ==> slot.sequence == item.sequence)
  }

  ghost predicate ProducerOk(s: System)
    requires Fits(s)
  {
    match s.p
    case PRest => |s.pushed| - s.taken <= s.ring.maximum
    case PBegan(_) => |s.pushed| - s.taken <= s.ring.maximum
    case PDropping => |s.pushed| - s.taken <= s.ring.maximum
    case POwn(_, own) => own == s.ring.producer && |s.pushed| - s.taken <= s.ring.maximum
    case PBoth(_, own, other) =>
      own == s.ring.producer && |s.pushed| - s.taken <= s.ring.maximum && exists base: nat :: Loaded(s, other, base)
    case PFilling(item, own, other, done) =>
      && own == s.ring.producer && |s.pushed| - s.taken <= s.ring.maximum && PartlyStored(s.ring.slots[own], item, done)
      && exists base: nat :: Loaded(s, other, base) && |s.pushed| + 1 <= base + Slots(s) - 1
    case PPublished(depth) => |s.pushed| - s.taken <= depth <= Slots(s) - 1
    case PRaising(depth, maximum) => |s.pushed| - s.taken <= depth <= Slots(s) - 1 && maximum <= s.ring.maximum
  }

  predicate ConsumerOk(s: System)
    requires s.ring.Sized()
  {
    match s.c
    case CRest => true
    case COwn(own) => own == s.ring.consumer
    case CPeeked(own) => own == s.ring.consumer && s.taken < |s.pushed|
    case CReading(own, length, words) =>
      own == s.ring.consumer && s.taken < |s.pushed|
      && length == |s.pushed[s.taken].words| && |words| <= length && words == s.pushed[s.taken].words[..|words|]
    case CHeld(own, item) => own == s.ring.consumer && s.taken < |s.pushed| && item == s.pushed[s.taken]
    case CLeaving(own) => own == s.ring.consumer && s.taken < |s.pushed|
  }

  /** Every item not taken yet is in its slot. */
  ghost predicate AllThere(s: System)
    requires s.ring.Sized()
  {
    forall i | s.taken <= i < |s.pushed| :: Stored(s, i)
  }

  ghost predicate Inv(s: System) {
    && Fits(s) && Counters(s) && s.ring.maximum <= Slots(s) - 1
    && AllThere(s) && ProducerOk(s) && ConsumerOk(s)
  }

  predicate Initial(s: System) {
    && s.ring.Sized() && s.ring.producer == 0 && s.ring.consumer == 0 && s.ring.maximum == 0 && s.ring.dropped == 0
    && s.p == PRest && s.c == CRest && s.pushed == [] && s.taken == 0 && s.attempts == 0
  }

  lemma InitialInv(s: System)
    requires Initial(s)
    ensures Inv(s)
  {}

  // ---------------------------------------------------------------- index arithmetic

  /** The depth computed from two ring indices is the number of items between them. */
  lemma DepthIs(w: nat, r: nat, n: nat)
    requires n > 0 && r <= w < r + n
    ensures r % n <= n && Depth(w % n, r % n, n) == w - r
  {
    var q, x := r / n, r % n;
    assert r == n * q + x;
    if x + (w - r) < n {
      Quotient(w, n, q, x + (w - r));
    } else {
      assert n * (q + 1) == n * q + n;
      Quotient(w, n, q + 1, x + (w - r) - n);
    }
  }

  // ---------------------------------------------------------------- producer steps

  /** The slot being filled is not one that holds an item the consumer may still read. */
  lemma FillsFreeSlot(s: System, i: nat)
    requires Fits(s) && Counters(s) && s.taken <= i < |s.pushed| && |s.pushed| + 1 <= s.taken + Slots(s) - 1 + 1
    ensures i % Slots(s) != |s.pushed| % Slots(s)
  {
    if i % Slots(s) == |s.pushed| % Slots(s) {
      SameResidue(i, |s.pushed|, Slots(s));
    }
  }

  lemma LoadedNow(s: System)
    requires Inv(s)
    ensures Loaded(s, s.ring.consumer, s.taken)
  {}

  lemma HasRoom(s: System, other: nat, base: nat)
    requires Inv(s) && Loaded(s, other, base) && Succ(s.ring, s.ring.producer) != other
    ensures |s.pushed| + 1 <= base + Slots(s) - 1
  {
    SuccMod(|s.pushed|, Slots(s));
    if |s.pushed| + 1 == base + Slots(s) {
      WholeTurn(base, Slots(s));
    }
  }

  lemma StoreOne(slot: Slot, item: Item, k: nat)
    requires PartlyStored(slot, item, k) && k < Stores(item)
    ensures PartlyStored(Store(slot, item, k), item, k + 1)
  {}

  lemma AllStored(slot: Slot, item: Item)
    requires PartlyStored(slot, item, Stores(item))
    ensures Holds(slot, item)
  {}

  // ---------------------------------------------------------------- steps keep the invariant

  /** Loads and counter updates leave the stored items alone. */
  lemma SameItems(s: System, t: System)
    requires Fits(s) && AllThere(s) && t.ring.slots == s.ring.slots && t.ring.size == s.ring.size
    requires s.pushed == t.pushed && s.taken <= t.taken
    ensures t.ring.Sized() && AllThere(t)
  {
    hide Holds;
    forall i | t.taken <= i < |t.pushed| ensures Stored(t, i) {
      assert Stored(s, i);
    }
  }

  lemma ProducerLoads(s: System, weak: bool)
    requires Inv(s) && (s.p.PRest? || s.p.PBegan? || s.p.POwn? || s.p.PDropping?)
    ensures Inv(AfterProduce(s, weak))
  {
    SameItems(s, AfterProduce(s, weak));
    hide Store, PartlyStored, AllThere;
    if s.p.POwn? {
      LoadedNow(s);
      assert Loaded(AfterProduce(s, weak), s.ring.consumer, s.taken);
    }
  }

  lemma ProducerDecides(s: System, weak: bool)
    requires Inv(s) && s.p.PBoth?
    ensures Inv(AfterProduce(s, weak))
  {
    var t := AfterProduce(s, weak);
    SameItems(s, t);
    var base: nat :| Loaded(s, s.p.other, base);
    if Succ(s.ring, s.p.own) != s.p.other {
      HasRoom(s, s.p.other, base);
      PartlyNothing(s.ring.slots[s.p.own], s.p.item);
      hide Store, PartlyStored, AllThere;
      assert Loaded(t, t.p.other, base);
    }
    hide Store, PartlyStored, AllThere;
  }

  lemma PartlyNothing(slot: Slot, item: Item)
    requires |item.words| <= |slot.words|
    ensures PartlyStored(slot, item, 0)
  {}

  lemma ProducerMeasures(s: System, weak: bool)
    requires Inv(s) && (s.p.PPublished? || s.p.PRaising?)
    ensures Inv(AfterProduce(s, weak))
  {
    SameItems(s, AfterProduce(s, weak));
    hide Store, PartlyStored, AllThere;
  }

  lemma ProducerStores(s: System, weak: bool)
    requires Inv(s) && s.p.PFilling? && s.p.done < Stores(s.p.item)
    ensures Inv(AfterProduce(s, weak))
  {
    var t := AfterProduce(s, weak);
    var base: nat :| Loaded(s, s.p.other, base) && |s.pushed| + 1 <= base + Slots(s) - 1;
    StoreOne(s.ring.slots[s.p.own], s.p.item, s.p.done);
    hide Store, PartlyStored, Holds;
    assert Fits(t);
    assert AllThere(t) by {
      forall i | t.taken <= i < |t.pushed| ensures Stored(t, i) {
        FillsFreeSlot(s, i);
        assert Stored(s, i);
      }
    }
    hide AllThere;
    assert Loaded(t, t.p.other, base);
  }

  lemma ProducerPublishes(s: System, weak: bool)
    requires Inv(s) && s.p.PFilling? && s.p.done == Stores(s.p.item)
    ensures Inv(AfterProduce(s, weak))
  {
    var t := AfterProduce(s, weak);
    var base: nat :| Loaded(s, s.p.other, base) && |s.pushed| + 1 <= base + Slots(s) - 1;
    AllStored(s.ring.slots[s.p.own], s.p.item);
    SuccMod(|s.pushed|, Slots(s));
    DepthIs(|s.pushed| + 1, base, Slots(s));
    hide Store, PartlyStored, Holds, Depth, Stores;
    assert AllThere(t) by {
      forall i | t.taken <= i < |t.pushed| ensures Stored(t, i) {
        if i < |s.pushed| {
          assert Stored(s, i);
        }
      }
    }
    hide AllThere;
  }

  lemma ProduceKeepsInv(s: System, weak: bool)
    requires Inv(s)
    ensures Inv(AfterProduce(s, weak))
  {
    hide Inv;
    match s.p
    case PBoth(_, _, _) => ProducerDecides(s, weak);
    case PFilling(item, _, _, done) =>
      if done < Stores(item) {
        ProducerStores(s, weak);
      } else {
        FillingFits(s);
        ProducerPublishes(s, weak);
      }
    case PPublished(_) => ProducerMeasures(s, weak);
    case PRaising(_, _) => ProducerMeasures(s, weak);
    case _ => ProducerLoads(s, weak);
  }

  lemma FillingFits(s: System)
    requires Inv(s) && s.p.PFilling?
    ensures s.p.done <= Stores(s.p.item)
  {}

  // ---------------------------------------------------------------- consumer steps

  lemma TakenStored(s: System)
    requires Inv(s) && s.taken < |s.pushed|
    ensures Holds(s.ring.slots[s.ring.consumer], s.pushed[s.taken])
  {
    hide Holds, ProducerOk, ConsumerOk;
    assert Stored(s, s.taken);
  }

  /** Different indices, so there is an item: the ring is never more than full. */
  lemma NotEmpty(s: System)
    requires Inv(s)
    ensures s.ring.consumer != s.ring.producer <==> s.taken < |s.pushed|
  {
    hide AllThere, ProducerOk, ConsumerOk;
    if s.taken < |s.pushed| && s.taken % Slots(s) == |s.pushed| % Slots(s) {
      SameResidue(s.taken, |s.pushed|, Slots(s));
    }
  }

  lemma ProducerUnmoved(s: System, t: System)
    requires Inv(s) && Fits(t) && s.p == t.p && s.pushed == t.pushed && s.taken <= t.taken
    requires t.ring.slots == s.ring.slots && t.ring.producer == s.ring.producer && t.ring.maximum == s.ring.maximum
    ensures ProducerOk(t)
  {
    hide AllThere, ConsumerOk, PartlyStored;
    if s.p.PBoth? {
      var base: nat :| Loaded(s, s.p.other, base);
      assert Loaded(t, t.p.other, base);
    } else if s.p.PFilling? {
      var base: nat :| Loaded(s, s.p.other, base) && |s.pushed| + 1 <= base + Slots(s) - 1;
      assert Loaded(t, t.p.other, base);
    }
  }

  lemma ConsumeKeepsInv(s: System, leave: bool)
    requires Inv(s)
    ensures Inv(AfterConsume(s, leave))
  {
    var t := AfterConsume(s, leave);
    NotEmpty(s);
    if s.taken < |s.pushed| {
      TakenStored(s);
    }
    SuccMod(s.taken, Slots(s));
    NextSlotDiffers(s);
    SameItems(s, t);
    hide AllThere, ProducerOk;
    assert Fits(t);
    ProducerUnmoved(s, t);
  }

  lemma NextSlotDiffers(s: System)
    requires Inv(s)
    ensures Succ(s.ring, s.ring.consumer) != s.ring.consumer
  {
    hide AllThere, ProducerOk, ConsumerOk;
    SuccMod(s.taken, Slots(s));
    if (s.taken + 1) % Slots(s) == s.taken % Slots(s) {
      SameResidue(s.taken + 1, s.taken, Slots(s));
    }
  }

  /** Any step of either side keeps the invariant. */
  lemma KeepsInv(s: System, e: Event)
    requires Inv(s) && Possible(s, e)
    ensures Inv(After(s, e))
  {
    match e
    case Push(item) =>
      SameItems(s, After(s, e));
      hide AllThere;
    case Produce(weak) =>
      ProduceKeepsInv(s, weak);
      hide Inv, AfterProduce;
    case Consume(leave) =>
      ConsumeKeepsInv(s, leave);
      hide Inv, AfterConsume;
  }

  // ---------------------------------------------------------------- whole runs

  ghost predicate Run(s: System, events: seq<Event>, t: System)
    decreases |events|
  {
    if events == [] then t == s
    else Fits(s) && Possible(s, events[0]) && Run(After(s, events[0]), events[1..], t)
  }

  /** Under every interleaving of the two sides the invariant holds. */
  lemma {:induction false} RunKeepsInv(s: System, events: seq<Event>, t: System)
    requires Inv(s) && Run(s, events, t)
    ensures Inv(t)
    decreases |events|
  {
    hide Inv, After;
    if events != [] {
      KeepsInv(s, events[0]);
      RunKeepsInv(After(s, events[0]), events[1..], t);
    }
  }

  /** The ring is a bounded first-in first-out queue: what the consumer copies is the oldest item not taken yet, whole. */
  lemma ReadsOldestItem(s: System)
    requires Inv(s) && s.c.CHeld?
    ensures s.taken < |s.pushed| && s.c.item == s.pushed[s.taken]
  {
    hide AllThere, ProducerOk;
  }

  /** From a successful peek until the discard the producer writes other slots only. */
  lemma PeekedSlotIsQuiet(s: System)
    requires Inv(s) && s.p.PFilling? && (s.c.CPeeked? || s.c.CReading? || s.c.CHeld? || s.c.CLeaving?)
    ensures s.p.own != s.c.own
  {
    hide AllThere, PartlyStored;
    if s.taken % Slots(s) == |s.pushed| % Slots(s) {
      SameResidue(s.taken, |s.pushed|, Slots(s));
    }
  }

  /** A peek succeeds exactly when an item is there, and a discard after it never fails. */
  lemma DiscardAlwaysFollowsPeek(s: System, leave: bool)
    requires Inv(s)
    ensures s.c.COwn? ==> (AfterConsume(s, leave).c.CPeeked? <==> s.taken < |s.pushed|)
    ensures s.c.CLeaving? ==> AfterConsume(s, leave).taken == s.taken + 1
  {
    NotEmpty(s);
    NextSlotDiffers(s);
    hide AllThere, ProducerOk;
  }

  /** Every finished push was taken, is still there, or was counted as dropped. */
  lemma Conservation(s: System)
    requires Inv(s)
    ensures s.ring.consumer <= Slots(s)
    ensures s.attempts == s.taken + Depth(s.ring.producer, s.ring.consumer, Slots(s)) + s.ring.dropped
  {
    hide AllThere, ProducerOk, ConsumerOk, Depth;
    DepthIs(|s.pushed|, s.taken, Slots(s));
  }

  /** The recorded maximum bounds the true depth although the consumer index behind it may be stale. */
  lemma MaximumBoundsDepth(s: System)
    requires Inv(s) && s.p.PRest?
    ensures s.ring.consumer <= Slots(s)
    ensures Depth(s.ring.producer, s.ring.consumer, Slots(s)) <= s.ring.maximum <= Slots(s) - 1
  {
    hide AllThere, ConsumerOk, Depth;
    DepthIs(|s.pushed|, s.taken, Slots(s));
  }

  /** A push is dropped only if the ring was full when the consumer index was loaded. */
  lemma DropsOnlyWhenFull(s: System, weak: bool)
    requires Inv(s) && s.p.PBoth? && AfterProduce(s, weak).p.PDropping?
    ensures exists base: nat :: Loaded(s, s.p.other, base) && |s.pushed| == base + Slots(s) - 1
  {
    hide AllThere, ConsumerOk;
    var base: nat :| Loaded(s, s.p.other, base);
    SuccMod(|s.pushed|, Slots(s));
    if |s.pushed| != base + Slots(s) - 1 {
      SameResidue(|s.pushed| + 1, base, Slots(s));
    }
    assert Loaded(s, s.p.other, base);
  }
}
