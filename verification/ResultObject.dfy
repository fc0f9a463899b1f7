/** The server's end of the result streams: several stdio streams over the one file. */
module ResultObject {
  import opened Bytes
  import opened Transfer
  import opened ResultFile

  /** results/remote/node0-result.tar */
  class HostFile {
    var contents: seq<Byte>
  }

  /** What outputfpMap_ and fileSizeMap_ hold for a connection, with the buffer of the stream. */
  class ResultStream {
    const host: HostFile
    const block: Block
    var open: bool
    var fileSize: int
    var offset: nat
    var buffer: seq<Byte>
    var crashed: bool
    /** All that has been written since the file was opened. */
    ghost var output: seq<Byte>

    ghost predicate Valid()
      reads this
    {
      offset <= |output| && buffer == output[offset..] && (open ==> offset == HandedOver(|output|, block))
    }

    ghost function View(): Receiver
      reads this
    {
      Receiver(open, fileSize, output, None, crashed)
    }

    constructor (host: HostFile, block: Block)
      ensures Valid() && !open && !crashed && this.host == host && this.block == block
    {
      this.host, this.block, open, fileSize, offset, buffer, crashed := host, block, false, 0, 0, [], false;
      output := [];
    }

    /** fopen(..., "wb") */
    method Fopen()
      modifies this, host
      ensures Valid() && open && output == [] && host.contents == []
      ensures crashed == old(crashed) && fileSize == old(fileSize)
    {
      host.contents := [];
      open, offset, buffer, output := true, 0, [], [];
      assert 0 % block == 0;
    }

    /** fwrite: whole blocks go to the file, the rest stays in the buffer. */
    method Fwrite(data: seq<Byte>)
      requires Valid() && open
      modifies this`offset, this`buffer, this`output, host
      ensures Valid() && output == old(output) + data
      ensures host.contents == Put(old(host.contents), block, old(output), data)
    {
      hide Overlay, HandedOver, Put;
      var all := buffer + data;
      var n := |all| - |all| % block;
      NextBlocks(host.contents, output, offset, data, block);
      host.contents := Overlay(host.contents, offset, all[..n]);
      output := output + data;
      offset, buffer := offset + n, all[n..];
    }

    /** fclose: the rest follows; closing a closed stream is the end of the program. */
    method Fclose()
      requires Valid()
      modifies this`open, this`crashed, this`offset, this`buffer, host
      ensures Valid() && !open && output == old(output)
      ensures if old(open) then crashed == old(crashed) else crashed
      ensures host.contents == if old(open) then
                                 Overlay(old(host.contents), old(offset), output[old(offset)..])
                               else old(host.contents)
    {
      if open {
        host.contents := Overlay(host.contents, offset, buffer);
        open, offset, buffer := false, offset + |buffer|, [];
      } else {
        crashed := true;
      }
    }

    /** onFileMsg for a message other than END; a first one opens the file. */
    method OnPiece(p: Piece, junk: seq<Byte>)
      requires Valid() && p.Data? && |junk| >= MemoryNeeded(p) && !crashed
      modifies this, host
      ensures Valid()
      ensures var r := Accept(old(View()), p, junk); View() == r.(verdict := None)
      ensures host.contents == Stored(Disk(old(host.contents), block), old(View()), p, junk)
    {
      if p.first {
        Fopen();
        fileSize := ToInt32(p.fileSize);
      }
      if open {
        var w := Written(p.content, p.patchLen, junk);
        assert [] + w == w;
        Fwrite(w);
      } else {
        crashed := true;
      }
    }

    /** fclose at END. */
    method OnClose()
      requires Valid() && !crashed
      modifies this`open, this`crashed, this`offset, this`buffer, host
      ensures Valid() && View() == Accept(old(View()), End, []).(verdict := None)
      ensures host.contents == Stored(Disk(old(host.contents), block), old(View()), End, [])
    {
      Fclose();
    }
  }

  /** What is handed over, and what stays, when data is written behind output. */
  lemma NextBlocks(file: seq<Byte>, output: seq<Byte>, offset: nat, data: seq<Byte>, block: Block)
    requires offset == HandedOver(|output|, block)
    ensures offset <= |output|
    ensures var all := output[offset..] + data;
            var n := |all| - |all| % block;
            0 <= n && offset + n == HandedOver(|output + data|, block)
            && Put(file, block, output, data) == Overlay(file, offset, all[..n])
            && all[n..] == (output + data)[offset + n..]
  {
    hide HandedOver, Overlay;
    WholeBlocksOf(|output|, |data|, block);
    assert output[offset..] + data == (output + data)[offset..];
    Slices(output + data, offset, HandedOver(|output + data|, block));
  }

  lemma Slices<T>(s: seq<T>, from: nat, goal: nat)
    requires from <= goal <= |s|
    ensures s[from..][..goal - from] == s[from..goal] && s[from..][goal - from..] == s[goal..]
  {
  }

  lemma WholeBlocksOf(written: nat, more: nat, block: Block)
    ensures var from, rest := HandedOver(written, block), written - HandedOver(written, block) + more;
            from + (rest - rest % block) == HandedOver(written + more, block)
  {
    var q, rest := written / block, written % block + more;
    assert q * block + written % block == written;
    Multiple(rest, q, block);
  }
}
