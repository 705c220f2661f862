/**
 What the KISS parser makes of any bytes between two FENDs: exactly the stuffed
 frames are reported, and a dangling escape at their end is overlooked.
 */
module KissParsing {
  import opened Bits
  import opened Kiss

  /** The bytes between two FENDs that stand for these frame bytes. */
  ghost predicate StandsFor(w: seq<Byte>, bytes: seq<Byte>) {
    0 < |bytes| <= STORAGE && (w == Escaped(bytes) || w == Escaped(bytes) + [FESC])
  }

  lemma EscapedNext(bytes: seq<Byte>, b: Byte)
    ensures Escaped(bytes + [b]) == Escaped(bytes) + Stuffed(b)
  {
    hide Stuffed;
    assert (bytes + [b])[..|bytes|] == bytes;
  }

  /** Stuffed bytes are collected as they were. */
  lemma {:induction false} StuffedIsCollected(bytes: seq<Byte>)
    requires |bytes| <= STORAGE
    ensures After(FRESH, Escaped(bytes)) == Parser(true, false, false, bytes)
  {
    hide Stuffed, Fed, After, Packets;
    if bytes == [] {
      FedNone(FRESH);
      assert Escaped(bytes) == [];
    } else {
      var n := |bytes| - 1;
      var shorter, b := bytes[..n], bytes[n];
      StuffedIsCollected(shorter);
      assert bytes == shorter + [b];
      EscapedNext(shorter, b);
      FedTwice(FRESH, Escaped(shorter), Stuffed(b));
      StuffedByte(After(FRESH, Escaped(shorter)), b);
    }
  }

  /** Whatever bytes but FEND came, a parser that has not given up has collected what they stand for. */
  lemma {:induction false} CollectedStandsFor(w: seq<Byte>)
    requires FEND !in w
    ensures var p := After(FRESH, w);
      p.active && (!p.rejected ==> |p.bytes| <= STORAGE && w == Escaped(p.bytes) + if p.escaped then [FESC] else [])
    ensures Packets(FRESH, w) == []
  {
    if w == [] {
      FedNone(FRESH);
    } else {
      var n := |w| - 1;
      CollectedStandsFor(w[..n]);
      CollectedStep(After(FRESH, w[..n]), w[..n], w[n]);
      assert w == w[..n] + [w[n]];
      FedOne(FRESH, w[..n], w[n]);
      hide After, Packets, Fed, Escaped;
    }
  }

  lemma CollectedStep(p: Parser, w: seq<Byte>, b: Byte)
    requires b != FEND && p.active
    requires !p.rejected ==> |p.bytes| <= STORAGE && w == Escaped(p.bytes) + if p.escaped then [FESC] else []
    ensures var (q, r) := Fed(p, b);
      && r == Nothing && q.active
      && (!q.rejected ==> |q.bytes| <= STORAGE && w + [b] == Escaped(q.bytes) + if q.escaped then [FESC] else [])
  {
    EscapedNext(p.bytes, b);
    EscapedNext(p.bytes, FEND);
    EscapedNext(p.bytes, FESC);
    hide Escaped;
  }

  lemma DanglingEscape(p: Parser)
    requires p.active && !p.rejected && !p.escaped
    ensures Fed(p, FESC).0 == p.(escaped := true)
  {}

  /**
   The closing FEND reports a frame if and only if the bytes since the opening one are a
   stuffed frame that fits, or such a frame and one more FESC; it is that frame.
   */
  lemma ReportsExactly(w: seq<Byte>)
    requires FEND !in w
    ensures var reported := Fed(After(FRESH, w), FEND).1;
      && (reported.Complete? <==> exists bytes: seq<Byte> :: StandsFor(w, bytes))
      && forall bytes: seq<Byte> | StandsFor(w, bytes) :: reported == Reported.Complete(HeaderSplit(bytes[0], bytes[1..]))
  {
    hide After, Packets, Escaped, HeaderSplit;
    CollectedStandsFor(w);
    var p := After(FRESH, w);
    if !p.rejected && |p.bytes| > 0 {
      assert w == Escaped(p.bytes) || w == Escaped(p.bytes) + [FESC] by {
        assert Escaped(p.bytes) + [] == Escaped(p.bytes);
      }
      assert StandsFor(w, p.bytes);
    }
    forall bytes: seq<Byte> | StandsFor(w, bytes)
      ensures Fed(p, FEND).1 == Reported.Complete(HeaderSplit(bytes[0], bytes[1..]))
    {
      StuffedIsCollected(bytes);
      if w != Escaped(bytes) {
        FedOne(FRESH, Escaped(bytes), FESC);
        DanglingEscape(After(FRESH, Escaped(bytes)));
      }
    }
  }

  /** A malformed escape spoils the frame, whatever follows up to the next FEND. */
  lemma MalformedEscapeRejects(before: seq<Byte>, b: Byte, after: seq<Byte>)
    requires FEND !in before && FEND !in after && b != FEND && b != TFEND && b != TFESC
    requires !After(FRESH, before).rejected && !After(FRESH, before).escaped
    ensures Fed(After(FRESH, before + [FESC, b] + after), FEND) == (FRESH, Nothing)
  {
    hide After, Packets;
    CollectedStandsFor(before);
    FedOne(FRESH, before, FESC);
    FedOne(FRESH, before + [FESC], b);
    assert before + [FESC, b] == before + [FESC] + [b];
    FedTwice(FRESH, before + [FESC, b], after);
    RejectedStays(After(FRESH, before + [FESC, b]), after);
  }

  lemma {:induction false} RejectedStays(p: Parser, w: seq<Byte>)
    requires p.rejected && FEND !in w
    ensures After(p, w) == p
  {
    if w != [] {
      RejectedStays(p, w[..|w| - 1]);
    }
  }

  /** The header byte is port times sixteen plus command. */
  lemma HeaderNibbles(header: Byte, data: seq<Byte>)
    ensures var frame := HeaderSplit(header, data);
      && frame.port as int < 16 && frame.command as int < 16 && frame.data == data
      && header as int == 16 * frame.port as int + frame.command as int
  {
    Nibbles(header);
  }

  lemma Nibbles(h: Byte)
    ensures (h >> 4) < 16 && (h & 0x0f) < 16 && h == 16 * (h >> 4) + (h & 0x0f)
    ensures h as int == 16 * (h >> 4) as int + (h & 0x0f) as int
  {}

  /** One packet as it goes over the socket. */
  lemma EncodedSample()
    ensures Encoding([0x01, 0xc0, 0x02, 0xdb, 0x03]) == [0xc0, 0x00, 0x01, 0xdb, 0xdc, 0x02, 0xdb, 0xdd, 0x03, 0xc0]
  {
    var p: seq<Byte> := [0x01, 0xc0, 0x02, 0xdb, 0x03];
    assert Escaped(p[..0]) == [];
    EscapedGrows(p, 0);
    EscapedGrows(p, 1);
    EscapedGrows(p, 2);
    EscapedGrows(p, 3);
    EscapedGrows(p, 4);
    hide Escaped;
    assert Escaped(p[..2]) == [0x01, 0xdb, 0xdc];
    assert Escaped(p[..4]) == [0x01, 0xdb, 0xdc, 0x02, 0xdb, 0xdd];
    assert p[..5] == p;
  }
}
