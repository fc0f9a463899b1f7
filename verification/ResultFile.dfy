/**
 * The one file in which the server keeps results. The messages that carry a result have no node ID, so that every
 * stream opens, truncates and writes the same file, each at an offset of its own.
 */
module ResultFile {
  import opened Bytes
  import opened Transfer

  function Zeros(n: nat): (s: seq<Byte>)
    ensures |s| == n && forall i :: 0 <= i < n ==> s[i] == 0
  {
    seq(n, _ => 0)
  }

  /** write at an offset: a gap in front of it is filled with zeros, and writing nothing changes nothing. */
  function Overlay(file: seq<Byte>, at: nat, data: seq<Byte>): (r: seq<Byte>)
    ensures |r| == if data != [] && at + |data| > |file| then at + |data| else |file|
    ensures forall k :: 0 <= k < |r| ==>
      r[k] == if at <= k < at + |data| then data[k - at] else if k < |file| then file[k] else 0
  {
    if data == [] then file
    else
      (if at <= |file| then file[..at] else file + Zeros(at - |file|)) + data
      + (if at + |data| <= |file| then file[at + |data|..] else [])
  }

  /** The size of the blocks in which stdio hands over what is written; 1 if it does not buffer. */
  type Block = n: nat | n > 0 witness 1

  datatype Disk = Disk(file: seq<Byte>, block: Block)

  /** What has been handed over when so much has been written and the file is still open. */
  function HandedOver(written: nat, block: Block): (n: nat)
    ensures n <= written
  {
    written - written % block
  }

  /** How much of what a stream has written is in the file; closing it hands over the rest. */
  function Reached(r: Receiver, block: Block): (n: nat)
    ensures n <= |r.output|
  {
    if r.open then HandedOver(|r.output|, block) else |r.output|
  }

  lemma {:induction false} Times(p: nat, q: nat, d: nat)
    requires p <= q
    ensures p * d <= q * d
  {
    if d > 0 {
      Times(p, q, d - 1);
    }
  }

  lemma WholeBlocks(p: nat, r: nat, q: nat, s: nat, d: nat)
    requires p * d + r <= q * d + s && s < d
    ensures p * d <= q * d
  {
    assert (q + 1) * d == q * d + d;
    if p <= q {
      Times(p, q, d);
    } else {
      Times(q + 1, p, d);
    }
  }

  lemma HandsOverMore(written: nat, more: nat, block: Block)
    ensures HandedOver(written, block) <= HandedOver(written + more, block)
  {
    var all := written + more;
    WholeBlocks(written / block, written % block, all / block, all % block, block);
    assert written / block * block + written % block == written;
    assert all / block * block + all % block == all;
  }

  lemma Multiple(a: int, k: int, block: Block)
    ensures (a + k * block) % block == a % block
  {
    var b := a + k * block;
    var d := b / block - (a / block + k);
    assert b == b / block * block + b % block && a == a / block * block + a % block;
    assert d * block == b / block * block - a / block * block - k * block;
    assert d * block == a % block - b % block;
    NoMultiple(d, block);
  }

  lemma NoMultiple(d: int, block: Block)
    requires d * block < block && -d * block < block
    ensures d == 0
  {
    if d > 0 {
      Times(1, d, block);
    } else if d < 0 {
      Times(1, -d, block);
    }
  }

  /** What is in the file after a stream that had written output has written data too. */
  function Put(file: seq<Byte>, block: Block, output: seq<Byte>, data: seq<Byte>): seq<Byte> {
    var from, to := HandedOver(|output|, block), HandedOver(|output + data|, block);
    HandsOverMore(|output|, |data|, block);
    Overlay(file, from, (output + data)[from..to])
  }

  /** What is in the file after a message of a stream whose receiver was r. */
  function Stored(d: Disk, r: Receiver, p: Piece, junk: seq<Byte>): seq<Byte>
    requires |junk| >= MemoryNeeded(p)
  {
    match p
    case End => if r.open then var from := Reached(r, d.block); Overlay(d.file, from, r.output[from..]) else d.file
    case Data(first, _, patchLen, content) =>
      var w := Written(content, patchLen, junk);
      if first then Put([], d.block, [], w)
      else if r.open then Put(d.file, d.block, r.output, w)
      else d.file
  }
}
