/** Committing the play history: the file is rewritten block by block until a whole pass
    finds it identical to the image. */
module HistoryCommit {
  import opened Bytes
  import opened Esp
  import opened HistorySlots
  import opened HistoryImage
  import opened HistoryCache

  const SERIAL_IO_BYTES: nat := 4096
  const COMMIT_MAX_PASSES: nat := 3

  /** The history file. Writes keep its length; on storage that is not reliable they may
      leave anything behind, anywhere in the file. */
  class HistoryFile {
    var contents: seq<byte>

    constructor (contents: seq<byte>)
      ensures this.contents == contents
    {
      this.contents := contents;
    }

    /** ftruncate: cuts the file or fills it up with zeros. */
    method Resize(size: nat, reliable: bool) returns (ok: bool)
      modifies this
      ensures ok ==> |contents| == size
      ensures ok && |old(contents)| == size ==> contents == old(contents)
      ensures reliable ==> ok
    {
      ok := *;
      if ok || reliable {
        contents := if size <= |contents| then contents[..size] else contents + Zeros(size - |contents|);
        ok := true;
      }
    }

    /** What a read finds; a failed one finds nothing. */
    method ReadBlock(offset: nat, length: nat, reliable: bool) returns (block: Option<seq<byte>>)
      requires offset + length <= |contents|
      ensures block.Some? ==> block.value == contents[offset..offset + length]
      ensures reliable ==> block.Some?
    {
      var fails: bool := *;
      block := if fails && !reliable then None else Some(contents[offset..offset + length]);
    }

    method WriteBlock(offset: nat, block: seq<byte>, reliable: bool) returns (ok: bool)
      requires offset + |block| <= |contents|
      modifies this
      ensures |contents| == |old(contents)|
      ensures reliable ==> ok && contents == old(contents)[..offset] + block + old(contents)[offset + |block|..]
    {
      if reliable {
        contents := contents[..offset] + block + contents[offset + |block|..];
        ok := true;
      } else {
        var left: seq<byte> :| |left| == |contents|;
        contents := left;
        ok := *;
      }
    }
  }

  ghost predicate SameUpTo(a: seq<byte>, b: seq<byte>, offset: nat) {
    |a| == |b| && offset <= |a| && a[..offset] == b[..offset]
  }

  lemma SameOneMore(a: seq<byte>, b: seq<byte>, offset: nat, next: nat)
    requires SameUpTo(a, b, offset) && offset <= next <= |a| && a[offset..next] == b[offset..next]
    ensures SameUpTo(a, b, next)
  {
    assert a[..next] == a[..offset] + a[offset..next];
  }

  /** The block at `offset`, read back and rewritten when it is not what it should be. */
  method SettleBlock(file: HistoryFile, image: seq<byte>, offset: nat, next: nat, reliable: bool)
    returns (identical: bool, err: Err)
    requires |file.contents| == |image| && offset <= next <= |image|
    modifies file
    ensures |file.contents| == |image|
    ensures identical ==> err == OK && file.contents == old(file.contents) && file.contents[offset..next] == image[offset..next]
    ensures reliable ==> err == OK && (identical <==> old(file.contents)[offset..next] == image[offset..next])
    ensures reliable ==> file.contents == old(file.contents)[..offset] + image[offset..next] + old(file.contents)[next..]
  {
    var actual := file.ReadBlock(offset, next - offset, reliable);
    if actual == Some(image[offset..next]) {
      assert file.contents == file.contents[..offset] + image[offset..next] + file.contents[next..];
      return true, OK;
    }
    var ok := file.WriteBlock(offset, image[offset..next], reliable);
    return false, if ok then OK else FAIL;
  }

  /** One pass over the whole file, in blocks of 4096 bytes and a last partial one. */
  method RewritePass(file: HistoryFile, image: seq<byte>, reliable: bool) returns (identical: bool, err: Err)
    requires |file.contents| == |image|
    modifies file
    ensures |file.contents| == |image|
    ensures identical && err == OK ==> file.contents == old(file.contents) == image
    ensures reliable ==> err == OK && file.contents == image && (identical <==> old(file.contents) == image)
  {
    identical := true;
    var offset := 0;
    ghost var before := file.contents;
    while offset < |image|
      invariant offset <= |image| == |file.contents|
      invariant identical ==> file.contents == before && SameUpTo(before, image, offset)
      invariant reliable ==> SameUpTo(file.contents, image, offset) && file.contents[offset..] == before[offset..]
      invariant reliable ==> (identical <==> SameUpTo(before, image, offset))
    {
      var next := if |image| - offset < SERIAL_IO_BYTES then |image| else offset + SERIAL_IO_BYTES;
      ghost var was := file.contents;
      var same;
      same, err := SettleBlock(file, image, offset, next, reliable);
      if err != OK {
        return false, err;
      }
      ghost var o := offset;
      if reliable {
        BlockSettled(before, was, file.contents, image, o, next);
      } else if same && identical {
        SameOneMore(before, image, o, next);
      }
      identical := identical && same;
      offset := next;
    }
    assert file.contents[..offset] == file.contents && image[..offset] == image && before[..offset] == before;
    err := OK;
  }

  lemma BlockSettled(before: seq<byte>, was: seq<byte>, now: seq<byte>, image: seq<byte>, offset: nat, next: nat)
    requires |before| == |was| == |image| && offset <= next <= |image|
    requires now == was[..offset] + image[offset..next] + was[next..]
    requires SameUpTo(was, image, offset) && was[offset..] == before[offset..]
    ensures SameUpTo(now, image, next) && now[next..] == before[next..]
    ensures SameUpTo(before, image, next) <==> SameUpTo(before, image, offset) && was[offset..next] == image[offset..next]
  {
    assert now[..next] == was[..offset] + image[offset..next];
    assert image[..next] == image[..offset] + image[offset..next];
    assert was[next..] == was[offset..][next - offset..] && before[next..] == before[offset..][next - offset..];
    assert was[offset..next] == was[offset..][..next - offset] == before[offset..next];
    if SameUpTo(before, image, next) {
      assert before[..offset] == before[..next][..offset] && image[..offset] == image[..next][..offset];
      assert before[offset..next] == before[..next][offset..] && image[offset..next] == image[..next][offset..];
    } else if SameUpTo(before, image, offset) && was[offset..next] == image[offset..next] {
      SameOneMore(before, image, offset, next);
    }
  }

  /** A commit. With `reliable` storage there is room, every access succeeds and writes are
      kept; otherwise any access may fail and a write may leave anything. `passes` counts
      the passes made. */
  method Flush(history: PlayHistory, file: HistoryFile, reliable: bool) returns (err: Err, passes: nat)
    requires history.Valid()
    modifies history`dirty, file
    ensures history.Valid() && history.Now() == old(history.Now()).(dirty := history.dirty)
    ensures !old(history.dirty) ==> err == OK && passes == 0 && file.contents == old(file.contents) && !history.dirty
    ensures old(history.dirty) ==> (history.dirty <==> err != OK)
    ensures old(history.dirty) && err == OK ==> file.contents == Image(old(history.Now()))
    ensures passes <= COMMIT_MAX_PASSES
    ensures reliable ==> err == OK && passes <= 2
    ensures reliable && old(file.contents) == Image(old(history.Now())) ==> passes <= 1
  {
    passes := 0;
    if !history.dirty {
      return OK, passes;
    }
    var image := history.BuildImage();
    var hasSpace, opens: bool := *, *;
    if !reliable && !hasSpace {
      return NO_MEM, passes;
    }
    if !reliable && !opens {
      return FAIL, passes;
    }
    var resized := file.Resize(|image|, reliable);
    if !resized {
      return FAIL, passes;
    }
    while passes < COMMIT_MAX_PASSES
      invariant passes <= COMMIT_MAX_PASSES && |file.contents| == |image|
      invariant history.Valid() && history.dirty && history.Now() == old(history.Now())
      invariant reliable ==> passes <= 1 && (passes == 1 ==> file.contents == image)
      invariant reliable && old(file.contents) == image ==> passes == 0 && file.contents == image
    {
      var identical, passErr := RewritePass(file, image, reliable);
      if passErr != OK {
        return passErr, passes;
      }
      var flushes, closes: bool := *, *;
      if !reliable && !flushes {
        return FAIL, passes;
      }
      passes := passes + 1;
      if identical {
        if !reliable && !closes {
          return FAIL, passes;
        }
        history.dirty := false;
        return OK, passes;
      }
    }
    return FAIL, passes;
  }

  /** A commit that succeeds, then a restart: the new cache is the saved one's image loaded. */
  method CommitAndRestart(history: PlayHistory, file: HistoryFile, reliable: bool) returns (err: Err, restarted: PlayHistory)
    requires history.Valid() && history.dirty
    modifies history`dirty, file
    ensures restarted.Valid()
    ensures err == OK ==> restarted.Now() == Load(Image(old(history.Now()))).1 == Repacked(old(history.Now()))
    ensures reliable ==> err == OK
  {
    var passes;
    ghost var saved := history.Now();
    err, passes := Flush(history, file, reliable);
    restarted := new PlayHistory();
    if err == OK {
      err := restarted.LoadImage(file.contents);
      SaveThenLoad(saved);
    }
  }
}
