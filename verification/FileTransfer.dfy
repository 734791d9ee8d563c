/**
 Reading a whole file (`jse_read_file`, source/jse_common.c:224-327) and replacing a file
 (`do_write_as_file`, source/jse_jscommon.c:468-590), whatever the sizes of the single reads
 and writes.
 */
module FileTransfer {
  import opened ReadBuffer

  const JSE_MAX_FILE_SIZE := 131072

  function Min(a: nat, b: nat): (m: nat)
    ensures m <= a && m <= b && (m == a || m == b)
  {
    if a < b then a else b
  }

  /** What the calls of `lseek` do: the first fails, or tells the length and the second may fail. */
  datatype Seek = NoSeek | Length(size: nat, rewinds: bool)

  /**
   The part of `jse_read_file` after `open`.  The descriptor need not deliver as many bytes
   as its length promised.  A descriptor that cannot seek is read to its end.  For one that
   can, the result is the promised length whatever was read: the leading bytes are the
   file's, and all of them are exactly when the file still had the promised length.
   */
  method ReadOpenFile(input: Input, seek: Seek) returns (ret: int, block: array<byte>, ghost filled: nat)
    requires !input.failed
    modifies input
    ensures fresh(block)
    ensures ret == -1 <==> input.failed || (seek.Length? && (seek.size > 131072 || !seek.rewinds))
    ensures ret != -1 ==> 0 <= ret <= block.Length && filled <= ret && filled <= |old(input.rest)|
    ensures ret != -1 ==> block[..filled] == old(input.rest)[..filled]
    ensures ret != -1 && seek.NoSeek? ==> ret == filled == |old(input.rest)|
    ensures ret != -1 && seek.Length? ==> ret == seek.size && filled == Min(seek.size, |old(input.rest)|)
  {
    filled := 0;
    if seek.NoSeek? {
      var buffer;
      ret, buffer := ReadFd(input);
      block := CopyOf(buffer);
      filled := if ret == -1 then 0 else |old(input.rest)|;
      return;
    }
    var size := seek.size;
    block := new byte[size + 1];
    ret := -1;
    if size > JSE_MAX_FILE_SIZE || !seek.rewinds { return; }
    var offset: nat := 0;
    var bytes, more := 0, true;
    while more
      invariant -1 <= bytes && offset <= size && fresh(block) && block.Length == size + 1
      invariant input.failed <==> bytes == -1
      invariant more ==> bytes >= 0
      invariant bytes >= 0 ==> offset <= |old(input.rest)| && block[..offset] == old(input.rest)[..offset]
      invariant bytes >= 0 ==> input.rest == old(input.rest)[offset..]
      invariant !more && bytes >= 0 ==> offset == Min(size, |old(input.rest)|)
      decreases |input.rest|, more
    {
      var result := input.Read(size - offset);
      if result.Failed? {
        bytes := -1;
      } else {
        ghost var rest := old(input.rest)[offset..];
        bytes := |result.data|;
        assert rest[..bytes] == result.data && rest[bytes..] == input.rest;
        forall i | 0 <= i < bytes { block[offset + i] := result.data[i]; }
        assert old(input.rest)[..offset + bytes] == old(input.rest)[..offset] + result.data;
        offset := offset + bytes;
      }
      more := bytes > 0 && size - offset > 0;
    }
    if bytes != -1 { ret, filled := size, offset; }
  }

  /** A file of one byte whose length was told as two: the length is the result, one byte is the file's. */
  method ShortenedFile() returns (ret: int, block: array<byte>, input: Input)
    ensures !input.failed ==> ret == 2 && block.Length >= 2 && block[0] == 7
  {
    input := new Input([7]);
    ghost var filled;
    ret, block, filled := ReadOpenFile(input, Length(2, true));
    if ret != -1 {
      assert block[..filled][0] == [7][..filled][0];
    }
  }

  /** The bytes of a buffer that was cut at end of file. */
  method CopyOf(buffer: Buffer) returns (block: array<byte>)
    requires buffer.Valid()
    ensures fresh(block) && block.Length == buffer.off && block[..] == buffer.View().got
  {
    block := new byte[buffer.off];
    forall i | 0 <= i < buffer.off { block[i] := buffer.block[i]; }
  }

  // ----- writing

  datatype Outcome = Done | Error

  /**
   The files of a directory. Any call may fail for reasons of its own, and a write may take
   none of the bytes it is given; `failures` and `stalls` count how often that happened.
   */
  class Files {
    var content: map<string, seq<byte>>
    var failures: nat
    var stalls: nat

    constructor (content: map<string, seq<byte>>)
      ensures this.content == content && failures == stalls == 0
    {
      this.content, failures, stalls := content, 0, 0;
    }

    /** `open` for writing with `O_TRUNC`, and `O_CREAT` when asked for. */
    method Open(name: string, create: bool) returns (ok: bool)
      modifies this
      ensures failures >= old(failures) && stalls == old(stalls)
      ensures ok <==> failures == old(failures) && (create || name in old(content))
      ensures content == if ok then old(content)[name := []] else old(content)
    {
      var failing: bool := *;
      if failing {
        failures := failures + 1;
        return false;
      }
      ok := create || name in content;
      if ok { content := content[name := []]; }
    }

    /** `write`: -1, or how many of the bytes were taken, which may be none. */
    method Write(name: string, data: seq<byte>) returns (bytes: int)
      requires name in content
      modifies this
      ensures -1 <= bytes <= |data|
      ensures failures == old(failures) + (if bytes == -1 then 1 else 0)
      ensures stalls == old(stalls) + (if bytes == 0 && data != [] then 1 else 0)
      ensures content == if bytes <= 0 then old(content) else old(content)[name := old(content)[name] + data[..bytes]]
    {
      bytes :| -1 <= bytes <= |data|;
      if bytes == -1 {
        failures := failures + 1;
      } else if bytes == 0 && data != [] {
        stalls := stalls + 1;
      } else if bytes > 0 {
        content := content[name := content[name] + data[..bytes]];
      }
    }

    method Rename(from: string, to: string) returns (ok: bool)
      requires from in content
      modifies this
      ensures failures == old(failures) + (if ok then 0 else 1) && stalls == old(stalls)
      ensures content == if ok then (old(content) - {from})[to := old(content)[from]] else old(content)
    {
      ok := *;
      if ok {
        content := (content - {from})[to := content[from]];
      } else {
        failures := failures + 1;
      }
    }
  }

  /**
   The write loop. It appends a prefix of the data; it gives -1 exactly when a write failed,
   and otherwise it has written all of the data exactly when no write took nothing.
   */
  method WriteLoop(files: Files, name: string, data: seq<byte>) returns (bytes: int, ghost off: nat)
    requires name in files.content
    modifies files
    ensures off <= |data|
    ensures files.content == old(files.content)[name := old(files.content)[name] + data[..off]]
    ensures files.failures >= old(files.failures) && (bytes == -1 <==> files.failures != old(files.failures))
    ensures bytes != -1 ==> (off == |data| <==> files.stalls == old(files.stalls))
  {
    var at: nat, len: nat := 0, |data|;
    var more := true;
    bytes := -1;
    ghost var start := files.content[name];
    assert start + data[..0] == start;
    while more
      invariant -1 <= bytes && at + len == |data|
      invariant files.content == old(files.content)[name := start + data[..at]]
      invariant files.failures == old(files.failures) + (if !more && bytes == -1 then 1 else 0)
      invariant files.stalls == old(files.stalls) + (if !more && bytes == 0 && len > 0 then 1 else 0)
      invariant !more && bytes > 0 ==> len == 0
      decreases len, more
    {
      bytes := files.Write(name, data[at..]);
      if bytes > 0 {
        assert start + data[..at] + data[at..][..bytes] == start + data[..at + bytes];
        at := at + bytes;
        len := len - bytes;
      }
      more := bytes > 0 && len > 0;
    }
    off := at;
  }

  /**
   `do_write_as_file` for a value that can be written, through the temporary file `tmp` of
   the target's directory. It succeeds exactly when no call failed and the temporary file was
   there already or `create` was asked for, whether or not the target was there. Then the
   target holds a prefix of the data, which is all of it exactly when no write took nothing,
   and the temporary file is gone. After an error no file but the temporary one has changed.
   */
  method WriteAsFile(files: Files, target: string, tmp: string, data: seq<byte>, create: bool)
    returns (outcome: Outcome, ghost off: nat)
    modifies files
    ensures outcome.Done? <==> files.failures == old(files.failures) && (create || tmp in old(files.content))
    ensures off <= |data|
    ensures outcome.Done? ==> files.content == (old(files.content) - {tmp})[target := data[..off]]
    ensures outcome.Done? ==> (off == |data| <==> files.stalls == old(files.stalls))
    ensures outcome.Error? ==>
      files.content == old(files.content) || files.content == old(files.content)[tmp := data[..off]]
    ensures !(create || tmp in old(files.content)) ==> files.content == old(files.content)
  {
    outcome, off := Error, 0;
    var isOpen := files.Open(tmp, create);
    if !isOpen { return; }
    var bytes;
    bytes, off := WriteLoop(files, tmp, data);
    assert [] + data[..off] == data[..off];
    if bytes == -1 { return; }
    var renamed := files.Rename(tmp, target);
    if !renamed { return; }
    assert old(files.content)[tmp := data[..off]] - {tmp} == old(files.content) - {tmp};
    outcome := Done;
  }

  /** Without `create` a file that is there is not replaced, although no call need have failed. */
  method ExistingTarget() returns (outcome: Outcome, files: Files)
    ensures outcome == Error && files.content == map["f" := [1]]
  {
    files := new Files(map["f" := [1]]);
    assert "t"[0] != "f"[0];
    ghost var off;
    outcome, off := WriteAsFile(files, "f", "t", [2], false);
  }

  /** When no call fails and the write takes nothing, the call succeeds and the file is empty. */
  method WriteTakesNothing() returns (outcome: Outcome, files: Files)
    ensures files.failures == 0 && files.stalls > 0 ==> outcome == Done && files.content == map["f" := []]
  {
    files := new Files(map["f" := [1]]);
    assert "t"[0] != "f"[0];
    ghost var off;
    outcome, off := WriteAsFile(files, "f", "t", [2], true);
    assert map["f" := [1]] - {"t"} == map["f" := [1]];
  }
}
