/** The size-based rotating file sink: the file system is a map from names to contents, and the
    sink renames, removes, truncates and appends to the files it owns. */
module RotatingSink {
  import opened Decimal

  type Files = map<string, string>

  /** `calc_filename`: the base name, or the base name with a numeral. */
  function CalcFilename(base: string, index: nat): string
  {
    if index == 0 then base else base + "." + Numeral(index)
  }

  /** The base file has the base name, and file `index` the base name, a dot, and the decimal digits that
      stand for `index`, without a leading zero. */
  lemma FilenameIs(base: string, index: nat) returns (digits: string)
    ensures CalcFilename(base, index) == if index == 0 then base else base + "." + digits
    ensures index > 0 ==> Digits(digits) && Value(digits) == index && |digits| > 0 && digits[0] != '0'
  {
    digits := Numeral(index);
    NumeralRoundTrip(index);
    if index > 0 { NoLeadingZero(index); }
  }

  /** Different indices never collide. */
  lemma FilenameInjective(base: string, i: nat, j: nat)
    requires CalcFilename(base, i) == CalcFilename(base, j)
    ensures i == j
  {
    if i != 0 && j != 0 {
      var dot := base + ".";
      assert (dot + Numeral(i))[|dot|..] == Numeral(i);
      assert (dot + Numeral(j))[|dot|..] == Numeral(j);
      NumeralInjective(i, j);
    }
  }

  /** A file's contents; a missing file reads as empty. */
  function Content(files: Files, name: string): string
  {
    if name in files then files[name] else ""
  }

  function Flatten(parts: seq<string>): string
  {
    if |parts| == 0 then "" else Flatten(parts[..|parts| - 1]) + parts[|parts| - 1]
  }

  /** What a reader sees: the files from the oldest index `n` down to the base file. */
  function Read(files: Files, base: string, n: nat): string
  {
    if n == 0 then Content(files, base) else Content(files, CalcFilename(base, n)) + Read(files, base, n - 1)
  }

  /** The names the sink owns. */
  ghost predicate Owned(base: string, maxFiles: nat, name: string)
  {
    exists i :: 0 <= i <= maxFiles && name == CalcFilename(base, i)
  }

  /** Index `i` holds the `i`-th newest part of the archive. */
  ghost predicate Keeps(files: Files, base: string, maxFiles: nat, archive: seq<string>)
  {
    && |archive| > maxFiles
    && forall i :: 0 <= i <= maxFiles ==> Content(files, CalcFilename(base, i)) == archive[|archive| - 1 - i]
  }

  /** The files read in order are the newest parts of the archive, whole. */
  lemma {:induction false} ReadIsSuffix(files: Files, base: string, maxFiles: nat, n: nat, archive: seq<string>)
    requires Keeps(files, base, maxFiles, archive) && n <= maxFiles
    ensures Read(files, base, n) == Flatten(archive[|archive| - 1 - n..])
  {
    if n == 0 {
      LastPart(archive);
      assert CalcFilename(base, 0) == base;
    } else {
      ReadIsSuffix(files, base, maxFiles, n - 1, archive);
      MoreParts(archive, n);
      ReadMore(files, base, n, archive[|archive| - 1 - n], Flatten(archive[|archive| - n..]));
    }
  }

  lemma ReadMore(files: Files, base: string, n: nat, part: string, rest: string)
    requires n > 0 && Content(files, CalcFilename(base, n)) == part && Read(files, base, n - 1) == rest
    ensures Read(files, base, n) == part + rest
  {
  }

  lemma LastPart(archive: seq<string>)
    requires |archive| > 0
    ensures Flatten(archive[|archive| - 1..]) == archive[|archive| - 1]
  {
    assert archive[|archive| - 1..] == [archive[|archive| - 1]];
    assert [archive[|archive| - 1]][..0] == [];
  }

  lemma MoreParts(archive: seq<string>, n: nat)
    requires 0 < n < |archive|
    ensures Flatten(archive[|archive| - 1 - n..]) == archive[|archive| - 1 - n] + Flatten(archive[|archive| - n..])
  {
    var first, rest := archive[|archive| - 1 - n], archive[|archive| - n..];
    FlattenFront(first, rest);
    assert archive[|archive| - 1 - n..] == [first] + rest;
  }

  lemma {:induction false} FlattenFront(first: string, rest: seq<string>)
    ensures Flatten([first] + rest) == first + Flatten(rest)
  {
    var all := [first] + rest;
    if |rest| == 0 {
      assert all == [first] && Flatten(all[..0]) == "";
    } else {
      FlattenFront(first, rest[..|rest| - 1]);
      assert all[..|all| - 1] == [first] + rest[..|rest| - 1];
    }
  }

  lemma {:induction false} FlattenAppend(a: seq<string>, b: seq<string>)
    ensures Flatten(a + b) == Flatten(a) + Flatten(b)
  {
    if |b| == 0 {
      assert a + b == a;
    } else {
      FlattenAppend(a, b[..|b| - 1]);
      assert (a + b)[..|a + b| - 1] == a + b[..|b| - 1];
    }
  }

  // -------------------------------------------------------------------------
  // Rotation
  // -------------------------------------------------------------------------

  /** The files after the renames for the indices above `i`. */
  ghost predicate Shifted(old_: Files, files: Files, base: string, maxFiles: nat, i: nat)
  {
    && (forall j :: i < j <= maxFiles
         ==> Content(files, CalcFilename(base, j)) == Content(old_, CalcFilename(base, j - 1)))
    && (i < maxFiles ==> CalcFilename(base, i) !in files)
    && (forall j :: 0 <= j < i || j == i == maxFiles ==> Same(old_, files, CalcFilename(base, j)))
    && OthersSame(old_, files, base, maxFiles)
  }

  /** Files the sink does not own are untouched. */
  ghost predicate OthersSame(a: Files, b: Files, base: string, maxFiles: nat)
  {
    forall name :: !Owned(base, maxFiles, name) ==> Same(a, b, name)
  }

  lemma OthersTransitive(a: Files, b: Files, c: Files, base: string, maxFiles: nat)
    requires OthersSame(a, b, base, maxFiles) && OthersSame(b, c, base, maxFiles)
    ensures OthersSame(a, c, base, maxFiles)
  {
    forall name | !Owned(base, maxFiles, name) ensures Same(a, c, name) {
      assert Same(a, b, name) && Same(b, c, name);
    }
  }

  ghost predicate Same(a: Files, b: Files, name: string)
  {
    (name in a <==> name in b) && Content(a, name) == Content(b, name)
  }

  /** Removing the target if it exists, then renaming the source onto it if that exists. */
  function Rename(files: Files, src: string, target: string): (r: Files)
    requires src != target
    ensures src !in r && Content(r, target) == Content(files, src)
    ensures forall name :: name != src && name != target ==> Same(files, r, name)
  {
    var gone := files - {target};
    if src in gone then (gone - {src})[target := gone[src]] else gone
  }

  lemma ShiftNext(old_: Files, files: Files, base: string, maxFiles: nat, i: nat)
    requires 0 < i <= maxFiles && Shifted(old_, files, base, maxFiles, i)
    ensures CalcFilename(base, i - 1) != CalcFilename(base, i)
    ensures Shifted(old_, Rename(files, CalcFilename(base, i - 1), CalcFilename(base, i)), base, maxFiles, i - 1)
  {
    var src, target := CalcFilename(base, i - 1), CalcFilename(base, i);
    if src == target { FilenameInjective(base, i - 1, i); assert false; }
    var r := Rename(files, src, target);
    forall j | 0 <= j <= maxFiles && j != i && j != i - 1 ensures Same(files, r, CalcFilename(base, j)) {
      if CalcFilename(base, j) == src { FilenameInjective(base, j, i - 1); }
      if CalcFilename(base, j) == target { FilenameInjective(base, j, i); }
    }
    forall j | i - 1 < j <= maxFiles
      ensures Content(r, CalcFilename(base, j)) == Content(old_, CalcFilename(base, j - 1))
    {
      assert Same(old_, files, src);
      if j > i { assert Same(files, r, CalcFilename(base, j)); }
    }
    forall j | 0 <= j < i - 1 ensures Same(old_, r, CalcFilename(base, j)) {
      assert Same(files, r, CalcFilename(base, j)) && Same(old_, files, CalcFilename(base, j));
    }
    forall name | !Owned(base, maxFiles, name) ensures Same(old_, r, name) {
      assert name != src && name != target;
      assert Same(files, r, name) && Same(old_, files, name);
    }
  }

  class Sink {
    const base: string
    const maxSize: nat
    const maxFiles: nat
    var files: Files
    var currentSize: nat
    ghost var archive: seq<string>

    /** The base file is open, its size is known, and the files are the newest parts of the archive. */
    ghost predicate Valid()
      reads this
    {
      base in files && Keeps(files, base, maxFiles, archive) && currentSize == |files[base]|
    }

    constructor (base: string, maxSize: nat, maxFiles: nat, disk: Files)
      ensures Valid() && this.base == base && this.maxSize == maxSize && this.maxFiles == maxFiles
      ensures archive == Initial(disk, base, maxFiles) && Flatten(archive) == Read(disk, base, maxFiles)
      ensures OthersSame(disk, files, base, maxFiles)
    {
      this.base, this.maxSize, this.maxFiles := base, maxSize, maxFiles;
      files := disk[base := Content(disk, base)];
      currentSize := |Content(disk, base)|;
      archive := Initial(disk, base, maxFiles);
      OpenKeeps(disk, base, maxFiles);
      assert Owned(base, maxFiles, base) by { assert base == CalcFilename(base, 0); }
    }

    /** Rotation moves each file to the next index and starts an empty base file; what was at the
        last index is dropped, and no other file is touched. */
    method Rotate()
      requires base in files
      modifies this`files
      ensures base in files && files[base] == ""
      ensures forall i :: 0 < i <= maxFiles
                ==> Content(files, CalcFilename(base, i)) == Content(old(files), CalcFilename(base, i - 1))
      ensures OthersSame(old(files), files, base, maxFiles)
    {
      var i := maxFiles;
      while i > 0
        invariant 0 <= i <= maxFiles && Shifted(old(files), files, base, maxFiles, i)
      {
        ShiftNext(old(files), files, base, maxFiles, i);
        files := Rename(files, CalcFilename(base, i - 1), CalcFilename(base, i));
        i := i - 1;
      }
      ghost var shifted := files;
      files := files[base := ""];
      forall j | 0 < j <= maxFiles
        ensures Content(files, CalcFilename(base, j)) == Content(old(files), CalcFilename(base, j - 1))
      {
        if CalcFilename(base, j) == CalcFilename(base, 0) { FilenameInjective(base, j, 0); }
        assert Content(files, CalcFilename(base, j)) == Content(shifted, CalcFilename(base, j));
      }
      forall name | !Owned(base, maxFiles, name) ensures Same(old(files), files, name) {
        assert CalcFilename(base, 0) == base;
        assert name != base && Same(old(files), shifted, name);
      }
    }

    /** Writing a message: the archive grows by exactly the message, in a new part after a rotation,
        and the base file is over the limit only when it holds this message alone. */
    method SinkIt(msg: string)
      requires Valid()
      modifies this`files, this`currentSize, this`archive
      ensures Valid() && archive == Written(old(archive), msg, maxSize)
      ensures Flatten(archive) == Flatten(old(archive)) + msg
      ensures |files[base]| > maxSize ==> files[base] == msg
      ensures OthersSame(old(files), files, base, maxFiles)
    {
      NewestIsBase(files, base, maxFiles, archive);
      currentSize := currentSize + |msg|;
      if currentSize > maxSize {
        StartFile();
        ExtendedFresh(old(archive), msg);
        currentSize := |msg|;
      }
      WriteKeeps(files, base, maxFiles, archive, msg);
      ExtendedFlatten(archive, msg);
      files := files[base := files[base] + msg];
      archive := Extended(archive, msg);
    }

    /** Rotation opens a new, empty part of the archive. */
    method StartFile()
      requires base in files && Keeps(files, base, maxFiles, archive)
      modifies this`files, this`archive
      ensures base in files && files[base] == "" && Keeps(files, base, maxFiles, archive)
      ensures archive == old(archive) + [""]
      ensures OthersSame(old(files), files, base, maxFiles)
    {
      Rotate();
      RotatedKeeps(old(files), files, base, maxFiles, archive);
      archive := archive + [""];
    }
  }

  /** The archive with a message added to its newest part. */
  function Extended(archive: seq<string>, msg: string): seq<string>
    requires |archive| > 0
  {
    archive[..|archive| - 1] + [archive[|archive| - 1] + msg]
  }

  /** The rule for one message: a part that would outgrow the limit is closed, and the message starts
      the next one. */
  function Written(archive: seq<string>, msg: string, maxSize: nat): (r: seq<string>)
    requires |archive| > 0
    ensures |archive| <= |r| <= |archive| + 1
  {
    if |archive[|archive| - 1]| + |msg| > maxSize then archive + [msg] else Extended(archive, msg)
  }

  /** The parts after a whole sequence of messages. */
  function Parts(archive: seq<string>, msgs: seq<string>, maxSize: nat): (r: seq<string>)
    requires |archive| > 0
    ensures |archive| <= |r|
  {
    if |msgs| == 0 then archive
    else Written(Parts(archive, msgs[..|msgs| - 1], maxSize), msgs[|msgs| - 1], maxSize)
  }

  lemma PartsNext(archive: seq<string>, msgs: seq<string>, k: nat, maxSize: nat)
    requires |archive| > 0 && k < |msgs|
    ensures Parts(archive, msgs[..k + 1], maxSize) == Written(Parts(archive, msgs[..k], maxSize), msgs[k], maxSize)
  {
    assert msgs[..k + 1][..k] == msgs[..k];
  }

  lemma {:induction false} WrittenFlatten(archive: seq<string>, msg: string, maxSize: nat)
    requires |archive| > 0
    ensures Flatten(Written(archive, msg, maxSize)) == Flatten(archive) + msg
  {
    FlattenLast(archive, msg);
    ExtendedFlatten(archive, msg);
  }

  /** No byte is lost, repeated or moved by cutting into parts. */
  lemma {:induction false} PartsFlatten(archive: seq<string>, msgs: seq<string>, maxSize: nat)
    requires |archive| > 0
    ensures Flatten(Parts(archive, msgs, maxSize)) == Flatten(archive) + Flatten(msgs)
  {
    if |msgs| > 0 {
      var front, last := msgs[..|msgs| - 1], msgs[|msgs| - 1];
      PartsFlatten(archive, front, maxSize);
      WrittenFlatten(Parts(archive, front, maxSize), last, maxSize);
      assert Flatten(archive) + Flatten(front) + last == Flatten(archive) + (Flatten(front) + last);
    }
  }

  /** Closed parts are never touched again: the parts that were there stay, and the newest of them is
      only extended. */
  lemma {:induction false} PartsKeepOld(archive: seq<string>, msgs: seq<string>, maxSize: nat)
    requires |archive| > 0
    ensures Parts(archive, msgs, maxSize)[..|archive| - 1] == archive[..|archive| - 1]
    ensures archive[|archive| - 1] <= Parts(archive, msgs, maxSize)[|archive| - 1]
  {
    if |msgs| > 0 {
      PartsKeepOld(archive, msgs[..|msgs| - 1], maxSize);
    }
  }

  /** Every part begun after the start is within the limit or is a single message, and so is the
      newest part once a message was written. */
  lemma {:induction false} PartsBounded(archive: seq<string>, msgs: seq<string>, maxSize: nat)
    requires |archive| > 0
    ensures forall k :: |archive| <= k < |Parts(archive, msgs, maxSize)|
              ==> |Parts(archive, msgs, maxSize)[k]| <= maxSize || Parts(archive, msgs, maxSize)[k] in msgs
    ensures var parts := Parts(archive, msgs, maxSize);
            |msgs| > 0 && |parts[|parts| - 1]| > maxSize ==> parts[|parts| - 1] == msgs[|msgs| - 1]
  {
    if |msgs| > 0 {
      var front, last := msgs[..|msgs| - 1], msgs[|msgs| - 1];
      PartsBounded(archive, front, maxSize);
      assert forall m :: m in front ==> m in msgs;
      assert last in msgs;
    }
  }

  /** The newest part is what the base file holds. */
  lemma NewestIsBase(files: Files, base: string, maxFiles: nat, archive: seq<string>)
    requires Keeps(files, base, maxFiles, archive)
    ensures Content(files, base) == archive[|archive| - 1]
  {
    assert CalcFilename(base, 0) == base;
  }

  lemma {:induction false} ExtendedFlatten(archive: seq<string>, msg: string)
    requires |archive| > 0
    ensures Flatten(Extended(archive, msg)) == Flatten(archive) + msg
  {
    var front, last := archive[..|archive| - 1], archive[|archive| - 1];
    FlattenLast(front, last + msg);
    assert Flatten(front) + (last + msg) == Flatten(front) + last + msg;
  }

  lemma {:induction false} FlattenLast(front: seq<string>, last: string)
    ensures Flatten(front + [last]) == Flatten(front) + last
  {
    assert (front + [last])[..|front|] == front;
  }

  lemma {:induction false} ExtendedFresh(archive: seq<string>, msg: string)
    ensures Extended(archive + [""], msg) == archive + [msg] && Flatten(archive + [""]) == Flatten(archive)
  {
    var more := archive + [""];
    assert more[..|more| - 1] == archive && "" + msg == msg;
  }

  lemma RotatedKeeps(was: Files, files: Files, base: string, maxFiles: nat, archive: seq<string>)
    requires Keeps(was, base, maxFiles, archive) && base in files && files[base] == ""
    requires forall i :: 0 < i <= maxFiles
               ==> Content(files, CalcFilename(base, i)) == Content(was, CalcFilename(base, i - 1))
    ensures Keeps(files, base, maxFiles, archive + [""])
  {
    var more := archive + [""];
    forall i | 0 <= i <= maxFiles ensures Content(files, CalcFilename(base, i)) == more[|more| - 1 - i] {
      if i > 0 {
        assert Content(was, CalcFilename(base, i - 1)) == archive[|archive| - 1 - (i - 1)];
      }
    }
  }

  /** The parts of the archive when the sink opens: the files already there. */
  function Initial(disk: Files, base: string, n: nat): (archive: seq<string>)
    ensures |archive| == n + 1
  {
    if n == 0 then [Content(disk, base)] else [Content(disk, CalcFilename(base, n))] + Initial(disk, base, n - 1)
  }

  lemma {:induction false} InitialAt(disk: Files, base: string, n: nat, i: nat)
    requires i <= n
    ensures Initial(disk, base, n)[n - i] == Content(disk, CalcFilename(base, i))
  {
    if n > 0 && i < n {
      InitialAt(disk, base, n - 1, i);
    }
  }

  /** Opening the base file for appending changes no contents. */
  lemma {:induction false} OpenKeeps(disk: Files, base: string, maxFiles: nat)
    ensures Keeps(disk[base := Content(disk, base)], base, maxFiles, Initial(disk, base, maxFiles))
    ensures Flatten(Initial(disk, base, maxFiles)) == Read(disk, base, maxFiles)
  {
    InitialKept(disk, base, maxFiles);
    SameContents(disk, disk[base := Content(disk, base)], base, maxFiles, Initial(disk, base, maxFiles));
    var archive := Initial(disk, base, maxFiles);
    assert archive[|archive| - 1 - maxFiles..] == archive;
    ReadIsSuffix(disk, base, maxFiles, maxFiles, archive);
  }

  lemma {:induction false} InitialKept(disk: Files, base: string, maxFiles: nat)
    ensures Keeps(disk, base, maxFiles, Initial(disk, base, maxFiles))
  {
    forall i | 0 <= i <= maxFiles
      ensures Content(disk, CalcFilename(base, i)) == Initial(disk, base, maxFiles)[maxFiles - i]
    {
      InitialAt(disk, base, maxFiles, i);
    }
  }

  lemma SameContents(a: Files, b: Files, base: string, maxFiles: nat, archive: seq<string>)
    requires Keeps(a, base, maxFiles, archive) && forall name :: Content(b, name) == Content(a, name)
    ensures Keeps(b, base, maxFiles, archive)
  {
  }

  lemma WriteKeeps(files: Files, base: string, maxFiles: nat, archive: seq<string>, msg: string)
    requires base in files && Keeps(files, base, maxFiles, archive)
    ensures Keeps(files[base := files[base] + msg], base, maxFiles,
                  Extended(archive, msg))
    ensures Owned(base, maxFiles, base)
  {
    var now := files[base := files[base] + msg];
    assert CalcFilename(base, 0) == base;
    forall i | 0 < i <= maxFiles ensures Content(now, CalcFilename(base, i)) == Content(files, CalcFilename(base, i)) {
      if CalcFilename(base, i) == CalcFilename(base, 0) { FilenameInjective(base, i, 0); }
    }
  }

  /** Everything ever written is what was dropped, in whole parts, followed by what can be read. */
  lemma {:induction false} SuffixOfHistory(files: Files, base: string, maxFiles: nat, archive: seq<string>)
    requires Keeps(files, base, maxFiles, archive)
    ensures Flatten(archive) == Flatten(archive[..|archive| - 1 - maxFiles]) + Read(files, base, maxFiles)
  {
    var k := |archive| - 1 - maxFiles;
    ReadIsSuffix(files, base, maxFiles, maxFiles, archive);
    FlattenAppend(archive[..k], archive[k..]);
    assert archive[..k] + archive[k..] == archive;
  }

  /** A whole run: the files hold the newest parts, cut exactly where the size rule cuts, of the
      initial contents followed by all messages; only the oldest whole parts are gone; the base file
      is over the limit only when it holds the last message alone; and no other file is touched. */
  method Run(base: string, maxSize: nat, maxFiles: nat, disk: Files, msgs: seq<string>) returns (files: Files)
    ensures Keeps(files, base, maxFiles, Parts(Initial(disk, base, maxFiles), msgs, maxSize))
    ensures var parts := Parts(Initial(disk, base, maxFiles), msgs, maxSize);
            Read(disk, base, maxFiles) + Flatten(msgs)
            == Flatten(parts[..|parts| - 1 - maxFiles]) + Read(files, base, maxFiles)
    ensures base in files
    ensures |msgs| > 0 && |files[base]| > maxSize ==> files[base] == msgs[|msgs| - 1]
    ensures OthersSame(disk, files, base, maxFiles)
  {
    var sink := new Sink(base, maxSize, maxFiles, disk);
    ghost var initial := Initial(disk, base, maxFiles);
    var k := 0;
    while k < |msgs|
      invariant 0 <= k <= |msgs| && fresh(sink) && sink.Valid()
      invariant sink.base == base && sink.maxSize == maxSize && sink.maxFiles == maxFiles
      invariant sink.archive == Parts(initial, msgs[..k], maxSize)
      invariant OthersSame(disk, sink.files, base, maxFiles)
    {
      ghost var before := sink.files;
      sink.SinkIt(msgs[k]);
      OthersTransitive(disk, before, sink.files, base, maxFiles);
      PartsNext(initial, msgs, k, maxSize);
      k := k + 1;
    }
    assert msgs[..k] == msgs;
    files := sink.files;
    RunEnds(files, base, maxSize, maxFiles, disk, msgs);
  }

  lemma {:induction false} RunEnds(files: Files, base: string, maxSize: nat, maxFiles: nat, disk: Files,
                                   msgs: seq<string>)
    requires base in files && Keeps(files, base, maxFiles, Parts(Initial(disk, base, maxFiles), msgs, maxSize))
    ensures var parts := Parts(Initial(disk, base, maxFiles), msgs, maxSize);
            Read(disk, base, maxFiles) + Flatten(msgs)
            == Flatten(parts[..|parts| - 1 - maxFiles]) + Read(files, base, maxFiles)
    ensures |msgs| > 0 && |files[base]| > maxSize ==> files[base] == msgs[|msgs| - 1]
  {
    var initial := Initial(disk, base, maxFiles);
    var parts := Parts(initial, msgs, maxSize);
    OpenKeeps(disk, base, maxFiles);
    PartsFlatten(initial, msgs, maxSize);
    SuffixOfHistory(files, base, maxFiles, parts);
    PartsBounded(initial, msgs, maxSize);
    NewestIsBase(files, base, maxFiles, parts);
  }
}
