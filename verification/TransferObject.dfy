/** The two ends of a file transfer as objects that read, write and count in place. */
module TransferObject {
  import opened Bytes
  import opened Transfer

  /** A file opened for reading, its cursor, and the write-complete callback of the connection. */
  class FileSender {
    var file: seq<Byte>
    var pos: nat
    var callback: bool

    constructor (contents: seq<Byte>)
      ensures View() == Opened(contents)
    {
      file, pos, callback := contents, 0, true;
    }

    ghost function View(): Sender
      reads this
    {
      Sender(file, pos, callback)
    }

    method Fread() returns (data: seq<Byte>)
      requires pos <= |file|
      modifies this`pos
      ensures data == NextChunk(old(View())) && View() == Advance(old(View()))
    {
      var end := if pos + CHUNK <= |file| then pos + CHUNK else |file|;
      data := file[pos..end];
      pos := end;
    }

    /** pushToClient and onResult: the first message of a transfer. */
    method FirstPiece(tail: seq<Byte>) returns (p: Piece)
      requires pos == 0
      modifies this`pos
      ensures p == Carry(old(View()), true, tail) && View() == Advance(old(View()))
    {
      var data := Fread();
      p := Data(true, |file| % TWO32, |data|, CString(data + tail));
    }

    method OnWriteComplete(tail: seq<Byte>) returns (p: Piece)
      requires pos <= |file|
      modifies this`pos, this`callback
      ensures (View(), p) == Continue(old(View()), tail)
    {
      var data := Fread();
      if |data| > 0 {
        p := Data(false, 0, |data|, CString(data + tail));
      } else {
        callback := false;
        p := End;
      }
    }
  }

  /** The file being written, whether it is open, and the size it was announced to have. */
  class FileReceiver {
    var open: bool
    var fileSize: int
    var output: seq<Byte>
    var crashed: bool
    ghost var verdict: Option<bool>

    ghost function View(): Receiver
      reads this
    {
      Receiver(open, fileSize, output, verdict, crashed)
    }

    /** fclose; closing a closed file is the end of the program. */
    method Fclose()
      modifies this`open, this`crashed
      ensures if old(open) then !open && crashed == old(crashed) else !open && crashed
    {
      if open {
        open := false;
      } else {
        crashed := true;
      }
    }

    /** The size check is made after an END that closed the file for the first time. */
    method OnFileMsg(p: Piece, junk: seq<Byte>) returns (complete: Option<bool>)
      requires |junk| >= MemoryNeeded(p) && !crashed
      modifies this
      ensures View() == Accept(old(View()), p, junk)
      ensures complete == if p.End? && old(open) then verdict else None
    {
      complete := None;
      match p {
        case End =>
          Fclose();
          if !crashed {
            var recvSize := ToInt32(|output|);
            complete := Some(recvSize == fileSize);
            verdict := complete;
          }
        case Data(first, size, patchLen, content) =>
          if first {
            open := true;
            fileSize := ToInt32(size);
            output := [];
          }
          if !open {
            crashed := true;
          } else {
            var w := Written(content, patchLen, junk);
            assert [] + w == w;
            output := output + w;
          }
      }
    }
  }
}
