/** The refillable buffer of src/io.cc and src/io.h, against the plain stream of bytes it stands for. */
module IoBuffer {
  import opened Basics

  /** The bytes of the files that are still to come. */
  function Concat(files: seq<seq<Byte>>): seq<Byte> {
    if files == [] then [] else files[0] + Concat(files[1..])
  }

  /** One file after the other. */
  lemma {:induction false} ConcatJoins(a: seq<seq<Byte>>, file: seq<Byte>, b: seq<seq<Byte>>)
    ensures Concat(a + [file] + b) == Concat(a) + file + Concat(b)
  {
    if a == [] {
      assert [] + [file] + b == [file] + b;
      assert ([file] + b)[1..] == b;
    } else {
      ConcatJoins(a[1..], file, b);
      assert (a + [file] + b)[1..] == a[1..] + [file] + b;
    }
  }

  function Smaller(a: nat, b: nat): nat {
    if a < b then a else b
  }

  /** `read` into the buffer: the first `got` bytes of `from` are stored at `start`. */
  method CopyIn(space: array<Byte>, start: nat, from: seq<Byte>, got: nat)
    requires got <= |from| && start + got <= space.Length
    modifies space
    ensures space[..start] == old(space[..start]) && space[start..start + got] == from[..got]
  {
    ghost var s := space[..];
    for k := 0 to got
      invariant forall i :: 0 <= i < start ==> space[i] == s[i]
      invariant forall i :: 0 <= i < k ==> space[start + i] == from[i]
    {
      space[start + k] := from[k];
    }
  }

  lemma LoadMore(s: seq<Byte>, t: seq<Byte>, pos: nat, end: nat, chunk: seq<Byte>)
    requires pos <= end && end + |chunk| <= |s| == |t|
    requires t[..end] == s[..end] && t[end..end + |chunk|] == chunk
    ensures t[pos..end + |chunk|] == s[pos..end] + chunk
  {
    assert t[pos..end] == t[..end][pos..] == s[pos..end];
  }

  /** Handing out the bytes up to `mid` splits the stream there. */
  lemma HandOut(s: seq<Byte>, pos: nat, mid: nat, end: nat, unread: seq<Byte>)
    requires pos <= mid <= end <= |s|
    ensures s[pos..end] + unread == s[pos..mid] + (s[mid..end] + unread)
  {
    assert s[pos..end] == s[pos..mid] + s[mid..end];
  }

  lemma HandOutLine(s: seq<Byte>, pos: nat, mid: nat, end: nat, unread: seq<Byte>, terminal: Byte)
    requires pos <= mid < end <= |s| && s[mid] == terminal
    ensures s[pos..end] + unread == s[pos..mid] + [terminal] + (s[mid + 1..end] + unread)
    ensures terminal in s[pos..end] + unread
  {
    assert s[pos..end] == s[pos..mid] + [terminal] + s[mid + 1..end];
  }

  /** `io_buf` for reading; `files` holds what `read` has not returned yet, for each file. */
  class Reader {
    var space: array<Byte>      // space.begin to space.end_array
    var pos: nat                // space.end: the next byte to hand out
    var endloaded: nat
    var files: seq<seq<Byte>>
    var current: nat

    ghost predicate Valid()
      reads this
    {
      0 < space.Length && pos <= endloaded <= space.Length && current <= |files|
    }

    /** The bytes of the current file and those after it. */
    ghost function Unread(): seq<Byte>
      requires Valid()
      reads this
    {
      Concat(files[current..])
    }

    /** The stream: every byte not handed out yet. */
    ghost function Rest(): seq<Byte>
      requires Valid()
      reads this, space
    {
      space[pos..endloaded] + Unread()
    }

    constructor (files: seq<seq<Byte>>)
      ensures Valid() && fresh(space) && Rest() == Concat(files) && this.files == files && current == 0
    {
      space := new Byte[0x1_0000];
      this.files := files;
      pos, endloaded, current := 0, 0, 0;
      new;
      assert files[0..] == files;
    }

    /** What `read` may do: any number of bytes up to the room, at least one while the file has any. */
    method ReadFile(room: nat) returns (got: nat)
      requires current < |files|
      ensures got <= room && got <= |files[current]|
      ensures room > 0 && files[current] != [] ==> got > 0
    {
      got :| 0 <= got <= room && got <= |files[current]| && (room > 0 && files[current] != [] ==> got > 0);
    }

    /** `memmove` of the unread bytes to the beginning of the buffer. */
    method Shift()
      requires Valid()
      modifies this`pos, this`endloaded, space
      ensures Valid() && pos == 0 && endloaded == old(endloaded - pos)
      ensures space[..endloaded] == old(space[pos..endloaded]) && Rest() == old(Rest())
    {
      hide Concat;
      var left := endloaded - pos;
      ghost var s := space[..];
      for k := 0 to left
        invariant forall i :: 0 <= i < k ==> space[i] == s[pos + i]
        invariant forall i :: k <= i < space.Length ==> space[i] == s[i]
        modifies space
      {
        space[k] := space[pos + k];
      }
      pos, endloaded := 0, left;
    }

    /** `reserve` to twice the size; it also sets `space.end` back to the beginning. */
    method Double()
      requires Valid()
      modifies this`space, this`pos, this`endloaded
      ensures fresh(space) && space.Length == 2 * old(space.Length)
      ensures pos == 0 && endloaded == old(endloaded) && space[..endloaded] == old(space[..endloaded])
    {
      var bigger := new Byte[2 * space.Length];
      for k := 0 to space.Length
        invariant forall i :: 0 <= i < k ==> bigger[i] == space[i]
        modifies bigger
      {
        bigger[k] := space[k];
      }
      space := bigger;
      pos := 0;
    }

    lemma TakeUnread(got: nat)
      requires Valid() && current < |files| && got <= |files[current]|
      ensures var files' := files[current := files[current][got..]];
        Unread() == files[current][..got] + Concat(files'[current..])
    {
      var files' := files[current := files[current][got..]];
      assert files[current..][0] == files[current] && files[current..][1..] == files[current + 1..];
      assert files'[current..][0] == files[current][got..] && files'[current..][1..] == files[current + 1..];
      assert files[current] == files[current][..got] + files[current][got..];
    }

    /** The doubling of `fill`. */
    method MakeRoom()
      requires Valid() && (endloaded == space.Length ==> pos == 0)
      modifies this`space, this`pos, this`endloaded
      ensures Valid() && pos == old(pos) && endloaded == old(endloaded) < space.Length
      ensures space == old(space) || fresh(space)
      ensures space[pos..endloaded] == old(space[pos..endloaded])
    {
      if space.Length == endloaded {
        Double();
      }
    }

    /**
     * `fill`. The stream keeps its bytes: doubling happens only with nothing handed out in front of the
     * unread bytes, so that resetting `space.end` moves nothing.
     */
    method Fill() returns (got: nat)
      requires Valid() && current < |files| && (endloaded == space.Length ==> pos == 0)
      modifies this`space, this`pos, this`endloaded, this`files, space
      ensures Valid() && Rest() == old(Rest()) && pos == old(pos)
      ensures space == old(space) || fresh(space)
      ensures |files| == old(|files|) && |Unread()| == old(|Unread()|) - got
      ensures got == 0 ==> files == old(files) && files[current] == [] && endloaded == old(endloaded)
    {
      hide Concat;
      MakeRoom();
      got := ReadFile(space.Length - endloaded);
      TakeUnread(got);
      ghost var s, chunk := space[..], files[current][..got];
      CopyIn(space, endloaded, files[current], got);
      LoadMore(s, space[..], pos, endloaded, chunk);
      files := files[current := files[current][got..]];
      endloaded := endloaded + got;
    }

    lemma NextFile()
      requires Valid() && current < |files| && files[current] == []
      ensures Unread() == Concat(files[current + 1..])
    {
      assert files[current..][1..] == files[current + 1..];
    }

    lemma NothingUnread()
      requires Valid() && current == |files|
      ensures Unread() == []
    {
    }

    /** More bytes from the current file, or else the next file; `open` says whether there is one. */
    method Refill() returns (open: bool)
      requires Valid() && current < |files| && (endloaded == space.Length ==> pos == 0)
      modifies this`space, this`pos, this`endloaded, this`files, this`current, space
      ensures Valid() && Rest() == old(Rest()) && pos == old(pos)
      ensures space == old(space) || fresh(space)
      ensures |files| == old(|files|) && old(current) <= current
      ensures |Unread()| + |files| - current < old(|Unread()| + |files| - current)
      ensures if open then current < |files| else current == |files|
      ensures !open ==> endloaded == old(endloaded) && Unread() == []
    {
      var more := Fill();
      if more > 0 { return true; }
      NextFile();
      current := current + 1;
      open := current < |files|;
      if !open { NothingUnread(); }
    }

    /**
     * `buf_read`: the next `n` bytes, or all there are left, stand at `pointer`. Nothing is lost or handed
     * out twice, whatever the sizes of the reads.
     */
    method BufRead(n: nat) returns (pointer: nat, got: nat)
      requires Valid() && (current < |files| || pos + n <= endloaded)
      modifies this`space, this`pos, this`endloaded, this`files, this`current, space
      ensures Valid() && (space == old(space) || fresh(space))
      ensures got == Smaller(n, |old(Rest())|) && pointer + got == pos
      ensures old(Rest()) == space[pointer..pos] + Rest()
      ensures |files| == old(|files|) && old(current) <= current
      ensures old(current) < |files| ==> (got < n <==> current == |files|)
      decreases |Unread()| + |files| - current
    {
      hide Concat;
      if pos + n <= endloaded {
        HandOut(space[..], pos, pos + n, endloaded, Unread());
        pointer, got := pos, n;
        pos := pos + n;
        return;
      }
      if pos != 0 {
        Shift();
      }
      var open := Refill();
      if open {
        pointer, got := BufRead(n);
      } else {
        pointer := pos;
        pos := endloaded;
        got := endloaded - pointer;
      }
    }

    /** The search loop of `readto`. */
    method Scan(terminal: Byte) returns (pointer: nat)
      requires Valid()
      ensures pos <= pointer <= endloaded && (pointer < endloaded ==> space[pointer] == terminal)
      ensures terminal !in space[pos..pointer]
    {
      pointer := pos;
      while pointer != endloaded && space[pointer] != terminal
        invariant pos <= pointer <= endloaded
        invariant terminal !in space[pos..pointer]
      {
        pointer := pointer + 1;
      }
    }

    /** `readto` when the terminator is in the buffer. */
    method TakeLine(end: nat, terminal: Byte) returns (pointer: nat, n: nat)
      requires Valid() && pos <= end < endloaded && space[end] == terminal
      modifies this`pos
      ensures Valid() && terminal in old(Rest())
      ensures pointer == old(pos) && pointer + n == end && end + 1 == pos
      ensures old(Rest()) == space[pointer..pointer + n] + [terminal] + Rest()
    {
      hide Concat;
      HandOutLine(space[..], pos, end, endloaded, Unread(), terminal);
      pointer, n := pos, end - pos;
      pos := end + 1;
    }

    /** `readto` when it is not: more bytes, or else the end of the input. */
    method Extend() returns (open: bool)
      requires Valid() && current < |files|
      modifies this`space, this`pos, this`endloaded, this`files, this`current, space
      ensures Valid() && Rest() == old(Rest())
      ensures space == old(space) || fresh(space)
      ensures |files| == old(|files|) && old(current) <= current
      ensures |Unread()| + |files| - current < old(|Unread()| + |files| - current)
      ensures if open then current < |files| else current == |files|
      ensures !open ==> Rest() == old(space[pos..endloaded])
    {
      hide Concat;
      if endloaded == space.Length {
        Shift();
      }
      ghost var loaded := space[pos..endloaded];
      open := Refill();
      if !open { assert old(Rest()) == loaded + Unread(); }
    }

    /**
     * `readto`: the bytes up to the terminator, which is skipped; without one the end of the input is
     * reached, the result is 0 as for an empty line, and nothing is handed out.
     */
    method ReadTo(terminal: Byte) returns (pointer: nat, n: nat)
      requires Valid() && (current < |files| || terminal in space[pos..endloaded])
      modifies this`space, this`pos, this`endloaded, this`files, this`current, space
      ensures Valid() && (space == old(space) || fresh(space))
      ensures |files| == old(|files|) && old(current) <= current
      ensures terminal in old(Rest()) ==>
                && pointer + n + 1 == pos && terminal !in space[pointer..pointer + n]
                && old(Rest()) == space[pointer..pointer + n] + [terminal] + Rest()
      ensures terminal !in old(Rest()) ==> n == 0 && Rest() == old(Rest()) && current == |files|
      decreases |Unread()| + |files| - current
    {
      hide *;
      var end := Scan(terminal);
      if end != endloaded {
        pointer, n := TakeLine(end, terminal);
        return;
      }
      var open := Extend();
      if open {
        pointer, n := ReadTo(terminal);
      } else {
        pointer, n := endloaded, 0;
      }
    }
  }

  /** `io_buf` for writing; `written` is what the file holds. */
  class Writer {
    var space: array<Byte>
    var pos: nat                // space.end: the end of the bytes waiting in the buffer
    var written: seq<Byte>

    ghost predicate Valid()
      reads this
    {
      0 < space.Length && pos <= space.Length
    }

    /** Everything written so far: what was flushed and what still waits. */
    ghost function Output(): seq<Byte>
      requires Valid()
      reads this, space
    {
      written + space[..pos]
    }

    constructor ()
      ensures Valid() && fresh(space) && Output() == []
    {
      space := new Byte[0x1_0000];
      pos, written := 0, [];
    }

    method Flush()
      requires Valid()
      modifies this`pos, this`written
      ensures Valid() && pos == 0 && written == old(Output()) && Output() == old(Output())
    {
      written := written + space[..pos];
      pos := 0;
    }

    /** `reserve` to twice the size, only ever with nothing waiting. */
    method Double()
      requires Valid() && pos == 0
      modifies this`space
      ensures fresh(space) && space.Length == 2 * old(space.Length) && Valid() && Output() == old(Output())
    {
      space := new Byte[2 * space.Length];
    }

    /**
     * `buf_write`: room for `n` bytes behind everything written so far. The caller fills it in and moves
     * `space.end` back if it needs less.
     */
    method BufWrite(n: nat) returns (pointer: nat)
      requires Valid()
      modifies this`space, this`pos, this`written
      ensures Valid() && (space == old(space) || fresh(space))
      ensures pos == pointer + n && written + space[..pointer] == old(Output())
      decreases pos, if n > space.Length then n - space.Length else 0
    {
      if pos + n <= space.Length {
        pointer := pos;
        pos := pos + n;
      } else {
        if pos != 0 {
          Flush();
        } else {
          Double();
        }
        pointer := BufWrite(n);
      }
    }

    /** The way every writer uses it: reserve at least as much as needed, store, set the end. */
    method Append(bs: seq<Byte>, reserved: nat)
      requires Valid() && |bs| <= reserved
      modifies this`space, this`pos, this`written, space
      ensures Valid() && (space == old(space) || fresh(space))
      ensures Output() == old(Output()) + bs
    {
      var c := BufWrite(reserved);
      ghost var before := space[..c];
      CopyIn(space, c, bs, |bs|);
      pos := c + |bs|;
      assert space[..pos] == before + bs;
    }
  }

  /** A run of appends and a last flush leave exactly the appended bytes in the file, in order. */
  method WriteAll(chunks: seq<seq<Byte>>) returns (file: seq<Byte>)
    ensures file == Concat(chunks)
  {
    var o := new Writer();
    assert chunks[0..] == chunks;
    for i := 0 to |chunks|
      invariant o.Valid() && fresh(o.space)
      invariant o.Output() + Concat(chunks[i..]) == Concat(chunks)
    {
      assert chunks[i..][1..] == chunks[i + 1..];
      o.Append(chunks[i], |chunks[i]|);
    }
    o.Flush();
    file := o.written;
  }

  /** Reading to the end in pieces of any sizes returns the bytes of the files, in order. */
  method ReadAll(files: seq<seq<Byte>>, sizes: seq<nat>) returns (bytes: seq<Byte>)
    requires files != []
    ensures bytes <= Concat(files)
    ensures |bytes| == Smaller(Total(sizes), |Concat(files)|)
  {
    var i := new Reader(files);
    bytes := [];
    ghost var all := Concat(files);
    hide Concat, Smaller, Total, Reader.Rest, Reader.Unread;
    TotalStep(sizes, 0);
    ReadStart(all);
    for k := 0 to |sizes|
      invariant i.Valid() && fresh(i.space) && |i.files| == |files|
      invariant i.current < |files| || i.Rest() == []
      invariant all == bytes + i.Rest() && |bytes| == Smaller(Total(sizes[..k]), |all|)
    {
      TotalStep(sizes, k);
      ReadStep(all, bytes, i.Rest(), Total(sizes[..k]), sizes[k]);
      if i.current < |files| {
        var pointer, got := i.BufRead(sizes[k]);
        bytes := bytes + i.space[pointer..i.pos];
      }
    }
    assert sizes[..|sizes|] == sizes;
  }

  lemma ReadStart(all: seq<Byte>)
    ensures Smaller(0, |all|) == 0
  {
  }

  lemma ReadStep(all: seq<Byte>, bytes: seq<Byte>, rest: seq<Byte>, total: nat, n: nat)
    requires all == bytes + rest && |bytes| == Smaller(total, |all|)
    ensures var got := Smaller(n, |rest|);
      got <= |rest| && (got < n ==> got == |rest|) && |bytes| + got == Smaller(total + n, |all|)
  {
  }

  lemma TotalStep(sizes: seq<nat>, k: nat)
    requires k <= |sizes|
    ensures Total(sizes[..0]) == 0
    ensures k < |sizes| ==> Total(sizes[..k + 1]) == Total(sizes[..k]) + sizes[k]
  {
    if k < |sizes| { assert sizes[..k + 1][..k] == sizes[..k]; }
  }

  function Total(sizes: seq<nat>): nat {
    if sizes == [] then 0 else Total(sizes[..|sizes| - 1]) + sizes[|sizes| - 1]
  }
}
