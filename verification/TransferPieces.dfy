/** What the messages of a transfer say, one after the other, and what a receiver makes of any messages at all. */
module TransferPieces {
  import opened Bytes
  import opened Transfer

  // ---- The messages that are sent -------------------------------------------------------------------------

  /** The sender after a number of messages and the last of them; tails is what its stack held for each. */
  function Sent(file: seq<Byte>, tails: seq<seq<Byte>>): (r: (Sender, Piece))
    requires tails != []
    ensures r.0.pos <= |r.0.file| && r.0.file == file
  {
    var n := |tails| - 1;
    if n == 0 then (Advance(Opened(file)), Carry(Opened(file), true, tails[0]))
    else Continue(Sent(file, tails[..n]).0, tails[n])
  }

  /** How many of the octets of the file are in message n. */
  function Share(file: seq<Byte>, n: nat): (k: nat)
    requires 65536 * n <= |file|
    ensures 65536 * n + k <= |file|
  {
    if 65536 * (n + 1) <= |file| then 65536 else |file| - 65536 * n
  }

  lemma ChunkAt(s: Sender, n: nat)
    requires s.pos == 65536 * n <= |s.file|
    ensures NextChunk(s) == s.file[65536 * n..65536 * n + Share(s.file, n)]
  {
  }

  /** There is more to read after n messages and the first one; the first one is sent even if the file is empty. */
  predicate Reading(file: seq<Byte>, n: nat) {
    n == 0 || 65536 * n < |file|
  }

  /** The sender when message n has been sent. */
  function SenderAt(file: seq<Byte>, n: nat): Sender {
    if Reading(file, n) then Sender(file, 65536 * n + Share(file, n), true) else Sender(file, |file|, false)
  }

  function PieceAt(file: seq<Byte>, n: nat, tail: seq<Byte>): Piece {
    if Reading(file, n) then
      var size := Share(file, n);
      Data(n == 0, if n == 0 then |file| % 0x1_0000_0000 else 0, size,
           CString(file[65536 * n..65536 * n + size] + tail))
    else End
  }

  lemma OpenedIs(file: seq<Byte>, tail: seq<Byte>)
    ensures Advance(Opened(file)) == SenderAt(file, 0) && Carry(Opened(file), true, tail) == PieceAt(file, 0, tail)
  {
    ChunkAt(Opened(file), 0);
    hide CString, NextChunk;
  }

  lemma ContinueIs(file: seq<Byte>, n: nat, tail: seq<Byte>)
    ensures Continue(SenderAt(file, n), tail) == (SenderAt(file, n + 1), PieceAt(file, n + 1, tail))
  {
    var s := SenderAt(file, n);
    if Reading(file, n + 1) {
      ChunkAt(s, n + 1);
    } else {
      assert NextChunk(s) == [];
    }
    hide CString, NextChunk;
  }

  /**
   * Message n carries octets 65536 n and following of the file, cut at the first zero; the first one announces the
   * size of the file, and all that go beyond the end of the file are ENDs.
   */
  lemma {:induction false} SentIs(file: seq<Byte>, tails: seq<seq<Byte>>)
    requires tails != []
    ensures var n := |tails| - 1; Sent(file, tails) == (SenderAt(file, n), PieceAt(file, n, tails[n]))
  {
    var n := |tails| - 1;
    hide SenderAt, PieceAt, Continue, Advance, Carry;
    if n == 0 {
      OpenedIs(file, tails[0]);
    } else {
      SentIs(file, tails[..n]);
      ContinueIs(file, n - 1, tails[n]);
    }
  }

  // ---- What a receiver makes of them ----------------------------------------------------------------------

  /** What lies in memory behind the content of each message. */
  predicate Enough(pieces: seq<Piece>, junks: seq<seq<Byte>>) {
    |pieces| == |junks| && forall i :: 0 <= i < |pieces| ==> |junks[i]| >= MemoryNeeded(pieces[i])
  }

  function AcceptAll(r: Receiver, pieces: seq<Piece>, junks: seq<seq<Byte>>): Receiver
    requires Enough(pieces, junks)
  {
    if pieces == [] then r
    else
      var last := |pieces| - 1;
      Accept(AcceptAll(r, pieces[..last], junks[..last]), pieces[last], junks[last])
  }

  /** The sum of all patch_len. */
  function Total(pieces: seq<Piece>): nat {
    if pieces == [] then 0
    else Total(pieces[..|pieces| - 1]) + MemoryNeeded(pieces[|pieces| - 1])
  }

  /** A first piece and others behind it. */
  predicate Stream(pieces: seq<Piece>) {
    pieces != [] && forall i :: 0 <= i < |pieces| ==> pieces[i].Data? && (pieces[i].first <==> i == 0)
  }

  lemma {:induction false} StreamIsTaken(r: Receiver, pieces: seq<Piece>, junks: seq<seq<Byte>>)
    requires Stream(pieces) && Enough(pieces, junks)
    ensures var t := AcceptAll(r, pieces, junks);
            t == r.(open := true, fileSize := ToInt32(pieces[0].fileSize), output := t.output)
            && |t.output| == Total(pieces)
  {
    var last := |pieces| - 1;
    hide Written;
    if last > 0 {
      StreamIsTaken(r, pieces[..last], junks[..last]);
    } else {
      assert pieces[..0] == [];
      assert Total(pieces[..0]) == 0;
    }
  }

  lemma Shift(a: int, b: int, c: int)
    requires a % TWO32 == b % TWO32
    ensures (a + c) % TWO32 == (b + c) % TWO32
  {
    var k := a / TWO32 - b / TWO32;
    assert a + c == TWO32 * ((b + c) / TWO32 + k) + (b + c) % TWO32;
  }

  lemma SameInt32(a: int, b: int)
    ensures ToInt32(a) == ToInt32(b) <==> a % 0x1_0000_0000 == b % 0x1_0000_0000
  {
    if a % TWO32 == b % TWO32 {
      Shift(a, b, TWO31);
    } else if (a + TWO31) % TWO32 == (b + TWO31) % TWO32 {
      Shift(a + TWO31, b + TWO31, -TWO31);
    }
  }

  /**
   * Whatever a sender announces and then sends, the check at the first END succeeds if and only if the announced size
   * and the lengths of all pieces together are the same modulo 2 to the power of 32. It does not look at the contents.
   */
  lemma CheckIff(r: Receiver, pieces: seq<Piece>, junks: seq<seq<Byte>>)
    requires Stream(pieces) && Enough(pieces, junks)
    ensures var t := Accept(AcceptAll(r, pieces, junks), End, []);
            !t.open && t.crashed == r.crashed
            && t.verdict == Some(pieces[0].fileSize % 0x1_0000_0000 == Total(pieces) % 0x1_0000_0000)
  {
    StreamIsTaken(r, pieces, junks);
    SameInt32(Total(pieces), pieces[0].fileSize);
    hide AcceptAll, Total, ToInt32;
  }

  /** A message that comes for a file that is not open, and does not open it, is the end of the program. */
  lemma CrashesIff(r: Receiver, p: Piece, junk: seq<Byte>)
    requires |junk| >= MemoryNeeded(p)
    ensures Accept(r, p, junk).crashed <==> r.crashed || (!r.open && (p.End? || !p.first))
    ensures !r.open && (p.End? || !p.first) ==> Accept(r, p, junk).output == r.output
  {
    hide Written, ToInt32;
  }
}
