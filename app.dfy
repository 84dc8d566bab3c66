/** The HTTP application's helpers: a reader that presents several file-like
    buffers as one stream, static files served with a prefix and a suffix,
    the web app manifest's short name and capability URLs. */
module App {

  /** A file-like buffer: its whole content and the current read position. */
  datatype Buffer = Buffer(content: string, pos: nat)
  {
    predicate Valid()
    {
      pos <= |content|
    }

    /** What is left to read. */
    function Rest(): string
      requires Valid()
    {
      content[pos..]
    }

    /** `read(n)`: everything that is left when n is negative, otherwise at
        most n characters; the position moves past what was read. */
    function Read(n: int): (r: (Buffer, string))
      requires Valid()
      ensures r.0.content == content && pos <= r.0.pos <= |content|
      ensures r.1 == content[pos..r.0.pos]
      ensures n < 0 ==> r.0.pos == |content|
      ensures n >= 0 ==> r.0.pos == if pos + n < |content| then pos + n else |content|
    {
      var end := if n < 0 || pos + n > |content| then |content| else pos + n;
      (Buffer(content, end), content[pos..end])
    }

    /** What `read(n)` returns is taken from the front of what is left: all
        of it for negative n, otherwise min(n, what is left) characters. */
    lemma ReadTakesFromRest(n: int)
      requires Valid()
      ensures Read(n).0.Valid()
      ensures Read(n).1 + Read(n).0.Rest() == Rest()
      ensures n < 0 ==> Read(n).1 == Rest()
      ensures n >= 0 ==> |Read(n).1| == if n < |Rest()| then n else |Rest()|
    {
      var r := Read(n);
      assert content[pos..r.0.pos] + content[r.0.pos..] == content[pos..];
    }
  }

  /** Joining strings does not depend on grouping. */
  lemma ConcatAssociates(a: string, b: string, c: string)
    ensures (a + b) + c == a + (b + c)
  {
  }

  predicate AllValid(files: seq<Buffer>)
  {
    forall i :: 0 <= i < |files| ==> files[i].Valid()
  }

  /** The contents of the buffers, one after another. */
  function Concat(files: seq<Buffer>): string
  {
    if files == [] then [] else files[0].content + Concat(files[1..])
  }

  /** What a reader whose current file is `current` still has to give: the
      rest of the current file and the whole of every later one. */
  function RemainingOf(files: seq<Buffer>, current: nat): string
    requires AllValid(files)
  {
    if current < |files| then files[current].Rest() + Concat(files[current + 1..]) else []
  }

  /** Concatenation distributes over appending sequences of buffers. */
  lemma {:induction false} ConcatAppend(a: seq<Buffer>, b: seq<Buffer>)
    ensures Concat(a + b) == Concat(a) + Concat(b)
  {
    if a == [] {
      assert a + b == b;
    } else {
      assert (a + b)[0] == a[0] && (a + b)[1..] == a[1..] + b;
      ConcatAppend(a[1..], b);
    }
  }

  /** Concatenation only looks at contents, not at positions. */
  lemma {:induction false} ConcatIgnoresPositions(a: seq<Buffer>, b: seq<Buffer>)
    requires |a| == |b|
    requires forall i :: 0 <= i < |a| ==> a[i].content == b[i].content
    ensures Concat(a) == Concat(b)
  {
    if a != [] {
      ConcatIgnoresPositions(a[1..], b[1..]);
    }
  }

  /** The stream from character `|Concat(files[..i])| + off` on is the tail of
      file i from `off` followed by every later file. */
  lemma ConcatFrom(files: seq<Buffer>, i: nat, off: nat)
    requires i < |files| && off <= |files[i].content|
    ensures |Concat(files[..i])| + off <= |Concat(files)|
    ensures Concat(files)[|Concat(files[..i])| + off..] == files[i].content[off..] + Concat(files[i + 1..])
  {
    assert files == files[..i] + files[i..];
    ConcatAppend(files[..i], files[i..]);
    assert files[i..][1..] == files[i + 1..];
  }

  /** The contents of the buffers, without their positions. */
  function Contents(files: seq<Buffer>): (r: seq<string>)
    ensures |r| == |files| && forall k :: 0 <= k < |files| ==> r[k] == files[k].content
  {
    seq(|files|, k requires 0 <= k < |files| => files[k].content)
  }

  /** Moving one buffer's position changes no content. */
  lemma ContentsAfterUpdate(files: seq<Buffer>, k: nat, buffer: Buffer)
    requires k < |files| && buffer.content == files[k].content
    ensures Contents(files[k := buffer]) == Contents(files)
  {
  }

  /** Reading `part` from the current file leaves the rest of the stream. */
  lemma RemainingAfterRead(files: seq<Buffer>, current: nat, buffer: Buffer, part: string)
    requires AllValid(files) && current < |files|
    requires buffer.Valid() && buffer.content == files[current].content
    requires part + buffer.Rest() == files[current].Rest()
    ensures AllValid(files[current := buffer])
    ensures part + RemainingOf(files[current := buffer], current) == RemainingOf(files, current)
  {
    var updated := files[current := buffer];
    assert updated[current + 1..] == files[current + 1..];
    ConcatAssociates(part, buffer.Rest(), Concat(files[current + 1..]));
  }

  /** Leaving a file that is at its end, and rewinding the next one, keeps
      what remains. */
  lemma RemainingAfterAdvance(files: seq<Buffer>, current: nat)
    requires AllValid(files) && current < |files|
    requires files[current].pos == |files[current].content|
    ensures current + 1 < |files| ==>
      && AllValid(files[current + 1 := Buffer(files[current + 1].content, 0)])
      && RemainingOf(files[current + 1 := Buffer(files[current + 1].content, 0)], current + 1) == RemainingOf(files, current)
    ensures current + 1 == |files| ==> RemainingOf(files, current + 1) == RemainingOf(files, current)
  {
    if current + 1 < |files| {
      var rewound := files[current + 1 := Buffer(files[current + 1].content, 0)];
      assert rewound[current + 2..] == files[current + 2..];
      assert files[current + 1..][1..] == files[current + 2..];
    }
  }

  /** After a seek past the end every file is at its end, yet the current
      file has not moved: what a following `read(-1)` returns is every file
      after the current one, from its start, since each is rewound when
      entered. */
  lemma RemainingWhenAllAtEnd(files: seq<Buffer>, current: nat)
    requires AllValid(files) && current < |files|
    requires forall k :: 0 <= k < |files| ==> files[k].pos == |files[k].content|
    ensures RemainingOf(files, current) == Concat(files[current + 1..])
  {
    assert files[current].Rest() == [];
  }

  /** The file that `read` enters next, rewound to its start. */
  function Rewound(files: seq<Buffer>, next: nat): (r: seq<Buffer>)
    requires AllValid(files)
    ensures AllValid(r) && |r| == |files|
  {
    if next < |files| then files[next := Buffer(files[next].content, 0)] else files
  }

  /** One call of `read(n)` from the buffers `files` with current file
      `current`: the buffers afterwards, the current file afterwards and the
      characters returned. Each turn reads from the current file and, when
      it ran short or n is negative, moves on to the next file, rewound. */
  function ReadFrom(files: seq<Buffer>, current: nat, n: int): (r: (seq<Buffer>, nat, string))
    requires AllValid(files) && current <= |files|
    ensures AllValid(r.0) && current <= r.1 <= |r.0| == |files|
    decreases |files| - current
  {
    if n == 0 || current == |files| then (files, current, [])
    else
      var step := files[current].Read(n);
      var read := files[current := step.0];
      if n < 0 || |step.1| < n then
        var r := ReadFrom(Rewound(read, current + 1), current + 1, n - |step.1|);
        (r.0, r.1, step.1 + r.2)
      else (read, current, step.1)
  }

  /** One turn of the loop of `read(n)`: from `files`, read from the current
      file and, if it ran short or n is negative, move to the next file and
      rewind it, giving `files'` with current file `current'` and `n'` still to
      read; the rest of the call then goes on from there. */
  lemma ReadFromStep(files: seq<Buffer>, current: nat, n: int, files': seq<Buffer>, current': nat, n': int)
    requires AllValid(files) && current < |files| && n != 0
    requires
      var step := files[current].Read(n);
      && n' == n - |step.1|
      && if n < 0 || |step.1| < n then current' == current + 1 && files' == Rewound(files[current := step.0], current + 1)
         else current' == current && files' == files[current := step.0]
    ensures AllValid(files') && current' <= |files'|
    ensures ReadFrom(files, current, n).0 == ReadFrom(files', current', n').0
    ensures ReadFrom(files, current, n).1 == ReadFrom(files', current', n').1
    ensures ReadFrom(files, current, n).2 == files[current].Read(n).1 + ReadFrom(files', current', n').2
  {
    var step := files[current].Read(n);
    if !(n < 0 || |step.1| < n) {
      assert step.1 + [] == step.1;
    }
  }

  /** `read(n)` moves positions only: every buffer keeps its content and
      stays valid. */
  lemma {:induction false} ReadFromContents(files: seq<Buffer>, current: nat, n: int)
    requires AllValid(files) && current <= |files|
    ensures AllValid(ReadFrom(files, current, n).0)
    ensures Contents(ReadFrom(files, current, n).0) == Contents(files)
    decreases |files| - current
  {
    if n != 0 && current < |files| {
      var step := files[current].Read(n);
      var read := files[current := step.0];
      ContentsAfterUpdate(files, current, step.0);
      if n < 0 || |step.1| < n {
        var next := Rewound(read, current + 1);
        if current + 1 < |read| {
          ContentsAfterUpdate(read, current + 1, Buffer(read[current + 1].content, 0));
        }
        ReadFromContents(next, current + 1, n - |step.1|);
      }
    }
  }

  /** What `read(n)` returns followed by what then remains is what remained
      before: nothing is skipped or repeated. */
  lemma {:induction false} ReadFromRemaining(files: seq<Buffer>, current: nat, n: int)
    requires AllValid(files) && current <= |files|
    ensures var r := ReadFrom(files, current, n);
      r.2 + RemainingOf(r.0, r.1) == RemainingOf(files, current)
    decreases |files| - current, 1
  {
    if n != 0 && current < |files| {
      ReadFromRemainingStep(files, current, n);
    } else {
      assert [] + RemainingOf(files, current) == RemainingOf(files, current);
    }
  }

  /** The step of `ReadFromRemaining` that reads from the current file. */
  lemma {:induction false} ReadFromRemainingStep(files: seq<Buffer>, current: nat, n: int)
    requires AllValid(files) && current < |files| && n != 0
    ensures var r := ReadFrom(files, current, n);
      r.2 + RemainingOf(r.0, r.1) == RemainingOf(files, current)
    decreases |files| - current, 0
  {
    var step := files[current].Read(n);
    var read := files[current := step.0];
    files[current].ReadTakesFromRest(n);
    RemainingAfterRead(files, current, step.0, step.1);
    if n < 0 || |step.1| < n {
      var next := Rewound(read, current + 1);
      var r := ReadFrom(next, current + 1, n - |step.1|);
      assert |step.0.Rest()| == 0;
      RemainingAfterAdvance(read, current);
      ReadFromRemaining(next, current + 1, n - |step.1|);
      ConcatAssociates(step.1, r.2, RemainingOf(r.0, r.1));
    }
  }

  /** For n >= 0 `read(n)` returns at most n characters, and fewer only when
      it ran past the last file; for n < 0 it always ends past the last file. */
  lemma {:induction false} ReadFromStops(files: seq<Buffer>, current: nat, n: int)
    requires AllValid(files) && current <= |files|
    ensures var r := ReadFrom(files, current, n);
      && (n == 0 ==> r == (files, current, []))
      && (n >= 0 ==> |r.2| <= n && (|r.2| < n ==> r.1 == |r.0|))
      && (n < 0 ==> r.1 == |r.0|)
    decreases |files| - current
  {
    if n != 0 && current < |files| {
      var step := files[current].Read(n);
      var read := files[current := step.0];
      if n < 0 || |step.1| < n {
        ReadFromStops(Rewound(read, current + 1), current + 1, n - |step.1|);
      }
    }
  }

  /** `read(n)` leaves the files before the current one alone. */
  lemma {:induction false} ReadFromKeepsEarlier(files: seq<Buffer>, current: nat, n: int)
    requires AllValid(files) && current <= |files|
    ensures forall k :: 0 <= k < current ==> ReadFrom(files, current, n).0[k] == files[k]
    decreases |files| - current
  {
    var whole := ReadFrom(files, current, n);
    if n != 0 && current < |files| {
      var step := files[current].Read(n);
      var read := files[current := step.0];
      if n < 0 || |step.1| < n {
        var next := Rewound(read, current + 1);
        assert whole.0 == ReadFrom(next, current + 1, n - |step.1|).0;
        ReadFromKeepsEarlier(next, current + 1, n - |step.1|);
      } else {
        assert whole.0 == read;
      }
    }
  }

  /** `read(n)` leaves every file it passed over at its end. */
  lemma {:induction false} ReadFromFinishesPassed(files: seq<Buffer>, current: nat, n: int)
    requires AllValid(files) && current <= |files|
    ensures forall k :: current <= k < ReadFrom(files, current, n).1 ==>
      ReadFrom(files, current, n).0[k].pos == |ReadFrom(files, current, n).0[k].content|
    decreases |files| - current
  {
    if n != 0 && current < |files| {
      var step := files[current].Read(n);
      if n < 0 || |step.1| < n {
        var next := Rewound(files[current := step.0], current + 1);
        var r := ReadFrom(next, current + 1, n - |step.1|);
        assert ReadFrom(files, current, n).0 == r.0 && ReadFrom(files, current, n).1 == r.1;
        ReadFromFinishesPassed(next, current + 1, n - |step.1|);
        assert r.0[current].pos == |r.0[current].content| by {
          ReadFromKeepsEarlier(next, current + 1, n - |step.1|);
          assert r.0[current] == next[current] == step.0;
          assert |step.0.Rest()| == 0;
        }
        forall k | current <= k < r.1
          ensures r.0[k].pos == |r.0[k].content|
        {
          if k != current {
            assert current + 1 <= k < r.1;
          }
        }
      }
    }
  }

  /** `read(n)` leaves every file after the new current one untouched. */
  lemma {:induction false} ReadFromKeepsLater(files: seq<Buffer>, current: nat, n: int)
    requires AllValid(files) && current <= |files|
    ensures forall k :: ReadFrom(files, current, n).1 < k < |files| ==> ReadFrom(files, current, n).0[k] == files[k]
    decreases |files| - current
  {
    var whole := ReadFrom(files, current, n);
    if n != 0 && current < |files| {
      var step := files[current].Read(n);
      var read := files[current := step.0];
      if n < 0 || |step.1| < n {
        var next := Rewound(read, current + 1);
        var r := ReadFrom(next, current + 1, n - |step.1|);
        assert whole.0 == r.0 && whole.1 == r.1;
        ReadFromKeepsLater(next, current + 1, n - |step.1|);
      } else {
        assert whole.0 == read && whole.1 == current;
      }
    }
  }

  /** `read(n)` returns min(n, remaining) characters for n > 0, and everything
      that remains, ending past the last file, for n < 0. */
  lemma ReadFromAmount(files: seq<Buffer>, current: nat, n: int)
    requires AllValid(files) && current <= |files|
    ensures var r := ReadFrom(files, current, n);
      && (n > 0 ==> |r.2| == if n < |RemainingOf(files, current)| then n else |RemainingOf(files, current)|)
      && (n < 0 ==> r.2 == RemainingOf(files, current) && r.1 == |r.0|)
  {
    ReadFromRemaining(files, current, n);
    ReadFromStops(files, current, n);
    var r := ReadFrom(files, current, n);
    assert |r.2| + |RemainingOf(r.0, r.1)| == |RemainingOf(files, current)|;
  }

  /** Where `seek` stops: file i, with every later file untouched, reaches
      what is left of the offset, so positioning it there leaves the stream
      from the offset to be read. */
  lemma SeekLands(start: seq<Buffer>, files: seq<Buffer>, i: nat, left: nat, offset: nat)
    requires AllValid(start) && AllValid(files) && i < |files| == |start|
    requires forall k :: 0 <= k < |files| ==> files[k].content == start[k].content
    requires forall k :: i <= k < |files| ==> files[k] == start[k]
    requires |Concat(start[..i])| + left == offset && left <= |start[i].content|
    ensures AllValid(files[i := Buffer(files[i].content, left)])
    ensures offset <= |Concat(start)|
    ensures RemainingOf(files[i := Buffer(files[i].content, left)], i) == Concat(start)[offset..]
  {
    var landed := files[i := Buffer(files[i].content, left)];
    assert landed[i + 1..] == start[i + 1..];
    ConcatFrom(start, i, left);
    ConcatIgnoresPositions(landed[i + 1..], start[i + 1..]);
  }

  class ConcatenatedReaders {
    var files: seq<Buffer>
    var currentFile: nat

    ghost predicate Valid()
      reads this
    {
      currentFile <= |files| && AllValid(files)
    }

    /** Everything a `read(-1)` would return now. */
    ghost function Remaining(): string
      reads this
      requires Valid()
    {
      RemainingOf(files, currentFile)
    }

    constructor(files: seq<Buffer>)
      requires AllValid(files)
      ensures Valid() && this.files == files && currentFile == 0
      ensures Remaining() == RemainingOf(files, 0)
    {
      this.files := files;
      currentFile := 0;
    }

    /** `seek(offset)`: walk the files, moving each to its end, until one is
        at least as long as what is left of the offset; that file becomes the
        current one, positioned at the offset. An offset equal to what is left
        selects the end of that file, not the start of the next. When the
        offset is past the end of all files, every file is left at its end and
        the current file does not change. */
    method Seek(offset: nat)
      requires Valid()
      modifies this
      ensures Valid()
      ensures |files| == |old(files)|
      ensures forall k :: 0 <= k < |files| ==> files[k].content == old(files)[k].content
      ensures offset <= |Concat(old(files))| && old(files) != [] ==>
        && currentFile < |files|
        && Remaining() == Concat(old(files))[offset..]
        && (currentFile == 0 || |Concat(old(files)[..currentFile])| < offset)
        && (forall k :: 0 <= k < currentFile ==> files[k].pos == |files[k].content|)
        && (forall k :: currentFile < k < |files| ==> files[k] == old(files)[k])
      ensures offset > |Concat(old(files))| || old(files) == [] ==>
        && currentFile == old(currentFile)
        && (forall k :: 0 <= k < |files| ==> files[k].pos == |files[k].content|)
    {
      ghost var start := files;
      var i := 0;
      var left := offset;
      while i < |files|
        invariant 0 <= i <= |files| == |start|
        invariant AllValid(files) && currentFile == old(currentFile)
        invariant forall k :: 0 <= k < |files| ==> files[k].content == start[k].content
        invariant forall k :: 0 <= k < i ==> files[k].pos == |files[k].content|
        invariant forall k :: i <= k < |files| ==> files[k] == start[k]
        invariant |Concat(start[..i])| + left == offset
        invariant i > 0 ==> left > 0
      {
        var length := |files[i].content|;
        if left > length {
          files := files[i := Buffer(files[i].content, length)];
          assert start[..i + 1] == start[..i] + [start[i]];
          ConcatAppend(start[..i], [start[i]]);
          left := left - length;
          i := i + 1;
        } else {
          SeekLands(start, files, i, left, offset);
          files := files[i := Buffer(files[i].content, left)];
          currentFile := i;
          return;
        }
      }
      assert start[..i] == start;
    }

    /** `read(n)`: for n = 0 nothing; for n > 0 the next min(n, remaining)
        characters; for n < 0 everything that remains, ending past the last
        file. Each file that is entered is first rewound to its start; each
        file that is left behind is at its end; no file before the current
        one and none after the new current one is touched. */
    method Read(n: int) returns (out: string)
      requires Valid()
      modifies this
      ensures Valid()
      ensures (files, currentFile, out) == ReadFrom(old(files), old(currentFile), n)
      ensures Contents(files) == Contents(old(files))
      ensures out + Remaining() == old(Remaining())
      ensures n == 0 ==> out == [] && files == old(files) && currentFile == old(currentFile)
      ensures n > 0 ==> |out| == if n < |old(Remaining())| then n else |old(Remaining())|
      ensures n < 0 ==> out == old(Remaining()) && currentFile == |files|
    {
      ghost var start, startFile := files, currentFile;
      ghost var total := ReadFrom(files, currentFile, n);
      var fs, current: nat := files, currentFile;
      out := "";
      var left := n;
      while left != 0 && current < |fs|
        invariant AllValid(fs) && current <= |fs|
        invariant ReadFrom(fs, current, left).0 == total.0 && ReadFrom(fs, current, left).1 == total.1
        invariant out + ReadFrom(fs, current, left).2 == total.2
        decreases |fs| - current, if left != 0 then 1 else 0
      {
        ghost var fs0, current0, left0, out0 := fs, current, left, out;
        var (buffer, part) := fs[current].Read(left);
        fs := fs[current := buffer];
        out := out + part;
        if left < 0 || |part| < left {
          current := current + 1;
          if current < |fs| {
            fs := fs[current := Buffer(fs[current].content, 0)];
          }
        }
        left := left - |part|;
        ReadFromStep(fs0, current0, left0, fs, current, left);
        ConcatAssociates(out0, part, ReadFrom(fs, current, left).2);
      }
      assert ReadFrom(fs, current, left) == (fs, current, []);
      assert out == out + [];
      files, currentFile := fs, current;
      ReadFromContents(start, startFile, n);
      ReadFromRemaining(start, startFile, n);
      ReadFromStops(start, startFile, n);
      ReadFromAmount(start, startFile, n);
    }
  }

  /** A static file served between a fixed prefix and suffix; `body` is what
      the file on disk holds. */
  datatype WrappedStaticFile = WrappedStaticFile(prefix: string, body: string, suffix: string)
  {
    /** `getFileSize`: the prefix, the file's size on disk and the suffix,
        which is the length of everything served. */
    function GetFileSize(): (size: nat)
      ensures size == |prefix + body + suffix|
    {
      |prefix| + |body| + |suffix|
    }
  }

  /** `openForReading`: a stream over the prefix, the freshly opened file and the suffix. */
  method OpenForReading(file: WrappedStaticFile) returns (reader: ConcatenatedReaders)
    ensures fresh(reader) && reader.Valid()
    ensures reader.files == [Buffer(file.prefix, 0), Buffer(file.body, 0), Buffer(file.suffix, 0)]
    ensures reader.currentFile == 0
  {
    reader := new ConcatenatedReaders([Buffer(file.prefix, 0), Buffer(file.body, 0), Buffer(file.suffix, 0)]);
  }

  /** Serving a whole wrapped file gives the prefix, the file and the suffix,
      exactly as many characters as `getFileSize` announces. */
  method ServeWhole(file: WrappedStaticFile) returns (served: string)
    ensures served == file.prefix + file.body + file.suffix
    ensures |served| == file.GetFileSize()
  {
    var reader := OpenForReading(file);
    assert reader.Remaining() == file.prefix + file.body + file.suffix by {
      var fs := reader.files;
      assert fs[1..][1..][1..] == [];
      assert Concat(fs[1..][1..]) == file.suffix;
      assert Concat(fs[1..]) == file.body + file.suffix;
    }
    served := reader.Read(-1);
  }

  /** The wrapper that turns a CommonJS module into a RequireJS one. */
  const CommonJSPrefix := "define(function (require, exports, module) {\n"
  const CommonJSSuffix := "\n});\n"

  /** A CommonJS file served with the RequireJS wrapper: the body is served
      unchanged, 50 characters of wrapper around it. */
  function CommonJSStaticFile(body: string): (file: WrappedStaticFile)
    ensures file.body == body
    ensures |file.prefix| == 45 && |file.suffix| == 5
    ensures file.GetFileSize() == |body| + 50
  {
    WrappedStaticFile(CommonJSPrefix, body, CommonJSSuffix)
  }

  /** The manifest's `short_name`: the title when it has at most 12
      characters, otherwise "ShinySDR". */
  function ShortName(title: string): (name: string)
    ensures |name| <= 12
    ensures name == title <==> |title| <= 12
    ensures |title| > 12 ==> name == "ShinySDR"
  {
    if |title| <= 12 then title else "ShinySDR"
  }

  /** `_make_cap_url`: the quoted capability as a path segment between
      slashes; `quote` is URL quoting with no safe characters. */
  function MakeCapUrl(cap: string, quote: string -> string): (url: string)
    ensures |url| == |quote(cap)| + 2
    ensures url[0] == '/' && url[|url| - 1] == '/'
    ensures url[1..|url| - 1] == quote(cap)
  {
    "/" + quote(cap) + "/"
  }

  /** Distinct capabilities get distinct URLs whenever quoting is injective. */
  lemma CapUrlsAreDistinct(a: string, b: string, quote: string -> string)
    requires forall x, y :: quote(x) == quote(y) ==> x == y
    requires a != b
    ensures MakeCapUrl(a, quote) != MakeCapUrl(b, quote)
  {
  }
}
