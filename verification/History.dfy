/**
 Save-state rotation.  The directory is a map from file names to contents; the previous state is renamed
 after the time of the next save, and one file too many makes the lexicographically first one go.
 */
module History {
  import opened Option
  import opened Decimal

  type Bytes = seq<bv8>

  const CURRENT := "current.state"
  const EXTENSION := ".state"

  function Name(timestamp: nat): string {
    Print(timestamp) + EXTENSION
  }

  predicate HasExtension(name: string) {
    |name| >= 6 && name[|name| - 6..] == EXTENSION
  }

  // ----- The order of file names

  predicate LexLess(a: string, b: string) {
    b != [] && (a == [] || a[0] < b[0] || (a[0] == b[0] && LexLess(a[1..], b[1..])))
  }

  lemma {:induction false} LexTransitive(a: string, b: string, c: string)
    requires LexLess(a, b) && LexLess(b, c)
    ensures LexLess(a, c)
  {
    if a != [] && a[0] == b[0] == c[0] {
      LexTransitive(a[1..], b[1..], c[1..]);
    }
  }

  lemma {:induction false} LexTotal(a: string, b: string)
    ensures a == b || LexLess(a, b) || LexLess(b, a)
  {
    if a != [] && b != [] && a[0] == b[0] {
      LexTotal(a[1..], b[1..]);
      assert a == [a[0]] + a[1..] && b == [b[0]] + b[1..];
    }
  }

  lemma {:induction false} LexIrreflexive(a: string)
    ensures !LexLess(a, a)
  {
    if a != [] {
      LexIrreflexive(a[1..]);
    }
  }

  lemma {:induction false} LexExtend(a: string, b: string, x: string, y: string)
    requires LexLess(a, b) && |a| == |b|
    ensures LexLess(a + x, b + y)
  {
    assert (a + x)[0] == a[0] && (b + y)[0] == b[0];
    if a[0] == b[0] {
      LexExtend(a[1..], b[1..], x, y);
      assert (a + x)[1..] == a[1..] + x && (b + y)[1..] == b[1..] + y;
    }
  }

  lemma {:induction false} LexCommon(p: string, x: string, y: string)
    requires LexLess(x, y)
    ensures LexLess(p + x, p + y)
  {
    if p == [] {
      assert p + x == x && p + y == y;
    } else {
      LexCommon(p[1..], x, y);
      assert (p + x)[1..] == p[1..] + x && (p + y)[1..] == p[1..] + y;
    }
  }

  /** Among numbers of the same width, names sort as the numbers do. */
  lemma {:induction false} DigitsOrder(a: nat, b: nat)
    requires a < b && |Print(a)| == |Print(b)|
    ensures LexLess(Print(a), Print(b))
  {
    if b >= 10 {
      assert a >= 10;
      var c, d := [Digit(a % 10)], [Digit(b % 10)];
      if a / 10 < b / 10 {
        DigitsOrder(a / 10, b / 10);
        LexExtend(Print(a / 10), Print(b / 10), c, d);
      } else {
        assert LexLess(c, d);
        LexCommon(Print(a / 10), c, d);
      }
    }
  }

  lemma {:induction false} WidthGrows(a: nat, b: nat)
    requires a <= b
    ensures |Print(a)| <= |Print(b)|
  {
    if b >= 10 && a >= 10 {
      WidthGrows(a / 10, b / 10);
    }
  }

  lemma {:induction false} PrintPrefix(b: nat, n: nat)
    requires n < |Print(b)|
    ensures Print(Cut(b, n)) == Print(b)[..|Print(b)| - n]
  {
    if n > 0 {
      PrintPrefix(b / 10, n - 1);
    }
  }

  lemma NameInjective(a: nat, b: nat)
    requires Name(a) == Name(b)
    ensures a == b
  {
    assert Print(a) == Name(a)[..|Name(a)| - 6] == Name(b)[..|Name(b)| - 6] == Print(b);
    PrintInjective(a, b);
  }

  /** Cut to the width of the earlier time, the later time is not below it. */
  predicate SortsBefore(a: nat, b: nat) {
    |Print(a)| <= |Print(b)| && a <= Cut(b, |Print(b)| - |Print(a)|)
  }

  /** When the file of an earlier time sorts before the file of a later one. */
  lemma NameOrder(a: nat, b: nat)
    requires a < b
    ensures LexLess(Name(a), Name(b)) <==> SortsBefore(a, b)
  {
    WidthGrows(a, b);
    var n := |Print(b)| - |Print(a)|;
    var q, rest := Cut(b, n), Print(b)[|Print(a)|..];
    PrintPrefix(b, n);
    assert Print(b) == Print(q) + rest;
    assert Name(b) == Print(q) + (rest + EXTENSION);
    hide Print, LexLess, Cut;
    if a < q {
      DigitsOrder(a, q);
      LexExtend(Print(a), Print(q), EXTENSION, rest + EXTENSION);
    } else if a == q {
      DigitAfterDot(b, rest);
      LexCommon(Print(a), EXTENSION, rest + EXTENSION);
    } else {
      DigitsOrder(q, a);
      LexExtend(Print(q), Print(a), rest + EXTENSION, EXTENSION);
      LexAsymmetric(Name(b), Name(a));
    }
  }

  lemma LexAsymmetric(a: string, b: string)
    requires LexLess(a, b)
    ensures !LexLess(b, a)
  {
    if LexLess(b, a) {
      LexTransitive(a, b, a);
      LexIrreflexive(a);
    }
  }

  /** A period sorts before what is left of a number. */
  lemma DigitAfterDot(b: nat, rest: string)
    requires rest != [] && |rest| <= |Print(b)| && rest == Print(b)[|Print(b)| - |rest|..]
    ensures LexLess(EXTENSION, rest + EXTENSION)
  {
    ValueOfPrint(b);
    assert IsDigit(rest[0]);
    assert (rest + EXTENSION)[0] == rest[0];
  }

  /** The first number with one digit more sorts before the last number without it. */
  lemma NextWidthSortsFirst(n: nat)
    requires n > 0
    ensures LexLess(Name(Pow10(n)), Name(Pow10(n) - 1)) && Name(Pow10(n)) != Name(Pow10(n) - 1)
  {
    TopDigits(n);
    assert Name(Pow10(n))[0] == '1' && Name(Pow10(n) - 1)[0] == '9';
  }

  lemma Nines(p: nat)
    requires p > 0
    ensures (10 * p - 1) / 10 == p - 1 && 10 * p / 10 == p
  {}

  lemma {:induction false} TopDigits(n: nat)
    ensures Print(Pow10(n))[0] == '1'
    ensures n > 0 ==> Print(Pow10(n) - 1)[0] == '9'
  {
    if n > 0 {
      TopDigits(n - 1);
      Nines(Pow10(n - 1));
    }
  }

  ghost predicate IsOldest(names: set<string>, oldest: string) {
    oldest in names && forall n | n in names && n != oldest :: LexLess(oldest, n)
  }

  /** Sort by name and take the front. */
  method Oldest(names: set<string>) returns (oldest: string)
    requires names != {}
    ensures IsOldest(names, oldest)
  {
    oldest :| oldest in names;
    var rest := names - {oldest};
    while rest != {}
      invariant rest <= names && IsOldest(names - rest, oldest)
      decreases rest
    {
      var n :| n in rest;
      ghost var seen := names - rest;
      LexTotal(oldest, n);
      if LexLess(n, oldest) {
        forall k | k in seen && k != oldest ensures LexLess(n, k) {
          LexTransitive(n, oldest, k);
        }
        oldest := n;
      }
      rest := rest - {n};
      assert names - rest == seen + {n};
    }
    assert names - rest == names;
  }

  lemma {:induction false} HasOldest(names: set<string>)
    requires names != {}
    ensures exists o :: IsOldest(names, o)
  {
    var n :| n in names;
    if names == {n} {
      assert IsOldest(names, n);
    } else {
      HasOldest(names - {n});
      var m :| IsOldest(names - {n}, m);
      LexTotal(m, n);
      if LexLess(n, m) {
        forall k | k in names && k != n ensures LexLess(n, k) {
          if k != m {
            LexTransitive(n, m, k);
          }
        }
        assert IsOldest(names, n);
      } else {
        assert IsOldest(names, m);
      }
    }
  }

  lemma OldestIsUnique(names: set<string>, a: string, b: string)
    requires IsOldest(names, a) && IsOldest(names, b)
    ensures a == b
  {
    if a != b {
      LexAsymmetric(a, b);
    }
  }

  // ----- What a save does to the directory

  datatype Saved = Saved(timestamp: nat, data: Bytes)

  function Renamed(files: map<string, Bytes>, timestamp: nat): map<string, Bytes> {
    if CURRENT in files then (files - {CURRENT})[Name(timestamp) := files[CURRENT]] else files
  }

  function States(files: map<string, Bytes>): set<string> {
    set n | n in files && HasExtension(n) && n != "current"
  }

  ghost function Trimmed(files: map<string, Bytes>, maxHistorySize: nat): map<string, Bytes> {
    if |States(files)| <= maxHistorySize then files else
      HasOldest(States(files));
      var oldest :| IsOldest(States(files), oldest);
      files - {oldest}
  }

  /** The directory after the given saves, whatever their times. */
  ghost function Directory(saves: seq<Saved>, maxHistorySize: nat): map<string, Bytes> {
    if saves == [] then map[] else
      var last := |saves| - 1;
      Trimmed(Renamed(Directory(saves[..last], maxHistorySize), saves[last].timestamp), maxHistorySize)
        [CURRENT := saves[last].data]
  }

  /** Whatever the times of the saves, at most maxHistorySize files lie beside the current state. */
  lemma {:induction false} DirectoryBounded(saves: seq<Saved>, maxHistorySize: nat)
    ensures |Directory(saves, maxHistorySize)| <= maxHistorySize + 1
    ensures saves != [] ==> CURRENT in Directory(saves, maxHistorySize)
    ensures forall n | n in Directory(saves, maxHistorySize) :: HasExtension(n)
  {
    if saves != [] {
      hide HasExtension, Name;
      var last := |saves| - 1;
      DirectoryBounded(saves[..last], maxHistorySize);
      StepBounded(Directory(saves[..last], maxHistorySize), saves[last], maxHistorySize);
    }
  }

  lemma StepBounded(files: map<string, Bytes>, s: Saved, maxHistorySize: nat)
    requires |files| <= maxHistorySize + 1 && (files != map[] ==> CURRENT in files)
    requires forall n | n in files :: HasExtension(n)
    ensures var files' := Trimmed(Renamed(files, s.timestamp), maxHistorySize);
      |files'[CURRENT := s.data]| <= maxHistorySize + 1 && forall n | n in files' :: HasExtension(n)
  {
    hide Renamed, Trimmed, HasExtension, Name;
    var renamed := Renamed(files, s.timestamp);
    RenamedBounded(files, s.timestamp);
    TrimmedBounded(renamed, maxHistorySize);
    AtMostOneMore(Trimmed(renamed, maxHistorySize), CURRENT, s.data);
  }

  lemma AtMostOneMore(files: map<string, Bytes>, name: string, data: Bytes)
    ensures |files[name := data]| <= |files| + 1
  {
    assert files[name := data].Keys == files.Keys + {name};
  }

  lemma RenamedBounded(files: map<string, Bytes>, timestamp: nat)
    requires forall n | n in files :: HasExtension(n)
    ensures |Renamed(files, timestamp)| <= |files|
    ensures forall n | n in Renamed(files, timestamp) :: HasExtension(n)
  {
    NotCurrent(timestamp);
    hide HasExtension, Name;
    if CURRENT in files {
      assert (files - {CURRENT}).Keys == files.Keys - {CURRENT};
      AtMostOneMore(files - {CURRENT}, Name(timestamp), files[CURRENT]);
    }
  }

  lemma TrimmedBounded(files: map<string, Bytes>, maxHistorySize: nat)
    requires |files| <= maxHistorySize + 1 && forall n | n in files :: HasExtension(n)
    ensures |Trimmed(files, maxHistorySize)| <= maxHistorySize
    ensures forall n | n in Trimmed(files, maxHistorySize) :: HasExtension(n)
  {
    AllAreStates(files);
    hide HasExtension, States;
    if |files| > maxHistorySize {
      var oldest := TrimmedByFront(files, maxHistorySize);
      hide Trimmed;
      OneFewer(files, oldest);
    }
  }

  lemma OneFewer(files: map<string, Bytes>, name: string)
    requires name in files
    ensures |files - {name}| == |files| - 1 && forall n | n in files - {name} :: n in files
  {
    assert (files - {name}).Keys == files.Keys - {name};
  }

  lemma TrimmedByFront(files: map<string, Bytes>, maxHistorySize: nat) returns (front: string)
    requires |States(files)| > maxHistorySize
    ensures IsOldest(States(files), front) && Trimmed(files, maxHistorySize) == files - {front}
  {
    HasOldest(States(files));
    hide States, IsOldest;
    front :| IsOldest(States(files), front) && Trimmed(files, maxHistorySize) == files - {front};
  }

  lemma AllAreStates(files: map<string, Bytes>)
    requires forall n | n in files :: HasExtension(n)
    ensures States(files) == files.Keys && |files.Keys| == |files|
  {
    assert !HasExtension("current");
  }

  // ----- What the directory should hold

  predicate Ordered(saves: seq<Saved>) {
    forall i, j | 0 <= i < j < |saves| :: saves[i].timestamp < saves[j].timestamp
  }

  /** The oldest archived file sorts before all later ones. */
  predicate SortsFirst(saves: seq<Saved>, from: nat) {
    forall k | from < k < |saves| :: SortsBefore(saves[from].timestamp, saves[k].timestamp)
  }

  /** Files for saves `from` and later: each holds the state that the save of that time replaced. */
  function Archive(saves: seq<Saved>, from: nat): (files: map<string, Bytes>)
    requires from >= 1
    decreases |saves| - from
  {
    if from >= |saves| then map[]
    else Archive(saves, from + 1)[Name(saves[from].timestamp) := saves[from - 1].data]
  }

  /** How many replaced states remain after the given number of saves. */
  function Kept(saves: nat, maxHistorySize: nat): (k: nat)
    requires saves > 0
    ensures k <= maxHistorySize && k < saves && (k < maxHistorySize ==> k == saves - 1)
  {
    if saves - 1 < maxHistorySize then saves - 1 else maxHistorySize
  }

  /** current.state is the latest save; beside it lie the newest states before it, at most maxHistorySize. */
  function Expected(saves: seq<Saved>, maxHistorySize: nat): map<string, Bytes> {
    if saves == [] then map[]
    else Archive(saves, |saves| - Kept(|saves|, maxHistorySize))[CURRENT := saves[|saves| - 1].data]
  }

  lemma {:induction false} ArchiveNames(saves: seq<Saved>, from: nat, name: string)
    requires from >= 1
    ensures name in Archive(saves, from) <==> exists k :: from <= k < |saves| && Name(saves[k].timestamp) == name
    decreases |saves| - from
  {
    hide Name;
    if from < |saves| {
      ArchiveNames(saves, from + 1, name);
    }
  }

  /** No timestamp name is the name of the current state. */
  lemma NotCurrent(timestamp: nat)
    ensures Name(timestamp) != CURRENT && HasExtension(Name(timestamp))
  {
    ValueOfPrint(timestamp);
    assert IsDigit(Print(timestamp)[0]);
    assert Name(timestamp)[0] == Print(timestamp)[0];
    assert Name(timestamp)[|Name(timestamp)| - 6..] == EXTENSION;
  }

  lemma {:induction false} ArchiveSize(saves: seq<Saved>, from: nat)
    requires 1 <= from <= |saves| && Ordered(saves)
    ensures |Archive(saves, from)| == |saves| - from
    ensures forall n | n in Archive(saves, from) :: HasExtension(n) && n != CURRENT
    decreases |saves| - from
  {
    hide Name, HasExtension;
    if from < |saves| {
      ArchiveSize(saves, from + 1);
      NotCurrent(saves[from].timestamp);
      FirstOnce(saves, from);
    }
  }

  lemma FirstOnce(saves: seq<Saved>, from: nat)
    requires 1 <= from < |saves| && Ordered(saves)
    ensures Name(saves[from].timestamp) !in Archive(saves, from + 1)
  {
    hide Name;
    var first := Name(saves[from].timestamp);
    ArchiveNames(saves, from + 1, first);
    if first in Archive(saves, from + 1) {
      var k :| from < k < |saves| && Name(saves[k].timestamp) == first;
      NameInjective(saves[k].timestamp, saves[from].timestamp);
    }
  }

  /** The earliest archived file is the one the sort puts in front exactly when it sorts before all others. */
  lemma FirstIsOldest(saves: seq<Saved>, from: nat)
    requires 1 <= from < |saves| && Ordered(saves)
    ensures IsOldest(Archive(saves, from).Keys, Name(saves[from].timestamp)) <==> SortsFirst(saves, from)
  {
    hide Name, LexLess, SortsBefore;
    var first := Name(saves[from].timestamp);
    var files := Archive(saves, from);
    FirstOnce(saves, from);
    forall k | from < k < |saves|
      ensures Name(saves[k].timestamp) in files && Name(saves[k].timestamp) != first
      ensures LexLess(first, Name(saves[k].timestamp)) <==> SortsBefore(saves[from].timestamp, saves[k].timestamp)
    {
      NameOrder(saves[from].timestamp, saves[k].timestamp);
      ArchiveNames(saves, from + 1, Name(saves[k].timestamp));
    }
    if SortsFirst(saves, from) {
      forall n | n in files && n != first ensures LexLess(first, n) {
        ArchiveNames(saves, from + 1, n);
      }
    }
  }

  lemma {:induction false} ArchiveValue(saves: seq<Saved>, from: nat, k: nat)
    requires 1 <= from <= k < |saves| && Ordered(saves)
    ensures Name(saves[k].timestamp) in Archive(saves, from)
    ensures Archive(saves, from)[Name(saves[k].timestamp)] == saves[k - 1].data
    decreases k - from
  {
    hide Name;
    if from < k {
      ArchiveValue(saves, from + 1, k);
      if Name(saves[from].timestamp) == Name(saves[k].timestamp) {
        NameInjective(saves[from].timestamp, saves[k].timestamp);
      }
    }
  }

  /** The directory holds the latest save as the current state and, under the time it was replaced, each of
      the newest min(n - 1, maxHistorySize) states before it, and nothing else. */
  lemma Retention(saves: seq<Saved>, maxHistorySize: nat)
    requires saves != [] && Ordered(saves)
    ensures var n, files := |saves|, Expected(saves, maxHistorySize);
      var kept := if n - 1 <= maxHistorySize then n - 1 else maxHistorySize;
      CURRENT in files && files[CURRENT] == saves[n - 1].data && |files| == 1 + kept &&
      forall k | n - kept <= k < n ::
        Name(saves[k].timestamp) in files && files[Name(saves[k].timestamp)] == saves[k - 1].data
  {
    hide Name, Archive, HasExtension;
    var n := |saves|;
    var from := n - Kept(n, maxHistorySize);
    ArchiveSize(saves, from);
    forall k | from <= k < n
      ensures Name(saves[k].timestamp) in Expected(saves, maxHistorySize)
      ensures Expected(saves, maxHistorySize)[Name(saves[k].timestamp)] == saves[k - 1].data
    {
      ArchiveValue(saves, from, k);
      NotCurrent(saves[k].timestamp);
    }
  }

  lemma {:induction false} ArchiveAppend(saves: seq<Saved>, s: Saved, from: nat)
    requires 1 <= from <= |saves| && Ordered(saves + [s])
    ensures Archive(saves + [s], from) == Archive(saves, from)[Name(s.timestamp) := saves[|saves| - 1].data]
    decreases |saves| - from
  {
    hide Name;
    var t := saves + [s];
    if from < |saves| {
      ArchiveAppend(saves, s, from + 1);
      if Name(t[from].timestamp) == Name(t[|saves|].timestamp) {
        NameInjective(t[from].timestamp, t[|saves|].timestamp);
      }
    } else {
      assert Archive(t, from + 1) == map[];
    }
  }

  /** The first archived save once the current state has been renamed. */
  function RenamedFrom(saves: seq<Saved>, maxHistorySize: nat): (from: nat)
    ensures 1 <= from <= |saves| + 1
  {
    if saves == [] then 1 else |saves| - Kept(|saves|, maxHistorySize)
  }

  lemma RenamedArchive(saves: seq<Saved>, s: Saved, maxHistorySize: nat)
    requires Ordered(saves + [s])
    ensures var from := RenamedFrom(saves, maxHistorySize);
      Renamed(Expected(saves, maxHistorySize), s.timestamp) == Archive(saves + [s], from) &&
      |Archive(saves + [s], from)| == |saves| + 1 - from
  {
    hide Name, HasExtension, Archive, Ordered;
    var t, from := saves + [s], RenamedFrom(saves, maxHistorySize);
    ArchiveSize(t, from);
    if saves == [] {
      ArchiveEmpty(t);
    } else {
      OrderedPrefix(saves, s);
      ArchiveSize(saves, from);
      var archive := Archive(saves, from);
      assert archive[CURRENT := saves[|saves| - 1].data] - {CURRENT} == archive;
      ArchiveAppend(saves, s, from);
    }
  }

  lemma ArchiveEmpty(saves: seq<Saved>)
    requires |saves| == 1
    ensures Archive(saves, 1) == map[]
  {}

  lemma ExpectedNext(saves: seq<Saved>, s: Saved, maxHistorySize: nat)
    ensures var t, from := saves + [s], RenamedFrom(saves, maxHistorySize);
      Expected(t, maxHistorySize) ==
      Archive(t, if |t| - from > maxHistorySize then from + 1 else from)[CURRENT := s.data]
  {}

  lemma OrderedPrefix(saves: seq<Saved>, s: Saved)
    requires Ordered(saves + [s])
    ensures Ordered(saves)
  {
    var t := saves + [s];
    assert forall i | 0 <= i < |saves| :: saves[i] == t[i];
  }

  // ----- When the directory holds what it should

  lemma RemoveAdded(files: map<string, Bytes>, name: string, data: Bytes)
    requires name !in files
    ensures files[name := data] - {name} == files
  {}

  lemma TrimmedArchive(t: seq<Saved>, from: nat, maxHistorySize: nat)
    requires 1 <= from <= |t| && Ordered(t)
    ensures Trimmed(Archive(t, from), maxHistorySize) ==
            Archive(t, if |t| - from > maxHistorySize then from + 1 else from) <==>
            (|t| - from > maxHistorySize ==> SortsFirst(t, from))
  {
    ArchiveSize(t, from);
    var files := Archive(t, from);
    AllAreStates(files);
    hide Name, HasExtension, IsOldest, Ordered, SortsFirst, States;
    if |t| - from > maxHistorySize {
      var first := Name(t[from].timestamp);
      FirstOnce(t, from);
      FirstIsOldest(t, from);
      var oldest := TrimmedByFront(files, maxHistorySize);
      if oldest == first {
        RemoveAdded(Archive(t, from + 1), first, t[from - 1].data);
      } else {
        assert first in files - {oldest};
        if SortsFirst(t, from) {
          OldestIsUnique(files.Keys, first, oldest);
        }
      }
    }
  }

  lemma SameWithCurrent(a: map<string, Bytes>, b: map<string, Bytes>, data: Bytes)
    requires CURRENT !in a && CURRENT !in b
    ensures a[CURRENT := data] == b[CURRENT := data] <==> a == b
  {
    if a[CURRENT := data] == b[CURRENT := data] {
      assert a == a[CURRENT := data] - {CURRENT} == b[CURRENT := data] - {CURRENT} == b;
    }
  }

  /** One more save leaves the expected directory exactly when nothing has to go or the right file does. */
  lemma NextExpected(saves: seq<Saved>, s: Saved, maxHistorySize: nat)
    requires Ordered(saves + [s])
    ensures var t, from := saves + [s], RenamedFrom(saves, maxHistorySize);
      (Trimmed(Renamed(Expected(saves, maxHistorySize), s.timestamp), maxHistorySize)[CURRENT := s.data] ==
       Expected(t, maxHistorySize)) <==> (|t| - from > maxHistorySize ==> SortsFirst(t, from))
  {
    var t, from := saves + [s], RenamedFrom(saves, maxHistorySize);
    var next := if |t| - from > maxHistorySize then from + 1 else from;
    hide Ordered, SortsFirst, Archive, Renamed, Expected, States, HasExtension;
    RenamedArchive(saves, s, maxHistorySize);
    ArchiveSize(t, from);
    ArchiveSize(t, next);
    TrimmedArchive(t, from, maxHistorySize);
    ExpectedNext(saves, s, maxHistorySize);
    SameWithCurrent(Trimmed(Archive(t, from), maxHistorySize), Archive(t, next), s.data);
  }

  lemma TrimmedByOldest(files: map<string, Bytes>, maxHistorySize: nat, oldest: string)
    requires |States(files)| > maxHistorySize && IsOldest(States(files), oldest)
    ensures Trimmed(files, maxHistorySize) == files - {oldest}
  {
    var front := TrimmedByFront(files, maxHistorySize);
    OldestIsUnique(States(files), oldest, front);
  }

  /** After every save the directory is the expected one. */
  ghost predicate Rotates(saves: seq<Saved>, maxHistorySize: nat) {
    forall n | 0 <= n <= |saves| :: Directory(saves[..n], maxHistorySize) == Expected(saves[..n], maxHistorySize)
  }

  /** Whenever a file has to go, the file of the earliest time sorts before all others. */
  predicate Sortable(saves: seq<Saved>, maxHistorySize: nat) {
    forall j, k | 1 <= j < k <= j + maxHistorySize && j + maxHistorySize < |saves| ::
      SortsBefore(saves[j].timestamp, saves[k].timestamp)
  }

  lemma SortableStep(saves: seq<Saved>, maxHistorySize: nat)
    requires saves != []
    ensures var last := |saves| - 1;
      Sortable(saves, maxHistorySize) <==>
      (Sortable(saves[..last], maxHistorySize) &&
       (last > maxHistorySize ==> SortsFirst(saves, last - maxHistorySize)))
  {
    hide SortsBefore;
    var last := |saves| - 1;
  }

  lemma RotatesStep(saves: seq<Saved>, maxHistorySize: nat)
    requires saves != []
    ensures Rotates(saves, maxHistorySize) <==>
            (Rotates(saves[..|saves| - 1], maxHistorySize) &&
             Directory(saves, maxHistorySize) == Expected(saves, maxHistorySize))
  {
    hide Directory, Expected;
    var last := |saves| - 1;
    assert saves[..|saves|] == saves;
    assert forall n | 0 <= n <= last :: saves[..last][..n] == saves[..n];
  }

  lemma DirectoryStep(saves: seq<Saved>, s: Saved, maxHistorySize: nat)
    ensures Directory(saves + [s], maxHistorySize) ==
            Trimmed(Renamed(Directory(saves, maxHistorySize), s.timestamp), maxHistorySize)[CURRENT := s.data]
  {
    assert (saves + [s])[..|saves|] == saves;
  }

  /** A file must go once more than maxHistorySize saves came before, and then it is the one that many back. */
  lemma MustGo(saves: seq<Saved>, maxHistorySize: nat)
    ensures var n, from := |saves|, RenamedFrom(saves, maxHistorySize);
      if n > maxHistorySize then from == n - maxHistorySize && n + 1 - from > maxHistorySize
      else n + 1 - from <= maxHistorySize
  {}

  lemma RotatesLast(saves: seq<Saved>, maxHistorySize: nat)
    requires Rotates(saves, maxHistorySize)
    ensures Directory(saves, maxHistorySize) == Expected(saves, maxHistorySize)
  {
    hide Directory, Expected;
    assert saves[..|saves|] == saves;
  }

  lemma RotationStep(saves: seq<Saved>, s: Saved, maxHistorySize: nat)
    requires Ordered(saves + [s]) && Directory(saves, maxHistorySize) == Expected(saves, maxHistorySize)
    ensures Directory(saves + [s], maxHistorySize) == Expected(saves + [s], maxHistorySize) <==>
            (|saves| > maxHistorySize ==> SortsFirst(saves + [s], |saves| - maxHistorySize))
  {
    hide *;
    MustGo(saves, maxHistorySize);
    DirectoryStep(saves, s, maxHistorySize);
    NextExpected(saves, s, maxHistorySize);
  }

  /** For increasing times: the directory is the expected one after every save if and only if the file names
      sort as the times do wherever a file has to go. */
  lemma {:induction false} RotationExact(saves: seq<Saved>, maxHistorySize: nat)
    requires Ordered(saves)
    ensures Rotates(saves, maxHistorySize) <==> Sortable(saves, maxHistorySize)
  {
    if saves == [] {
      assert Directory(saves[..0], maxHistorySize) == Expected(saves[..0], maxHistorySize);
    } else {
      var last := |saves| - 1;
      var before := saves[..last];
      assert Ordered(before) && before + [saves[last]] == saves;
      hide *;
      RotationExact(before, maxHistorySize);
      SortableStep(saves, maxHistorySize);
      RotatesStep(saves, maxHistorySize);
      if Rotates(before, maxHistorySize) {
        RotatesLast(before, maxHistorySize);
        RotationStep(before, saves[last], maxHistorySize);
      }
    }
  }

  lemma ExpectedWhenSortable(saves: seq<Saved>, maxHistorySize: nat)
    ensures Ordered(saves) && Sortable(saves, maxHistorySize) ==>
            Directory(saves, maxHistorySize) == Expected(saves, maxHistorySize)
  {
    if Ordered(saves) && Sortable(saves, maxHistorySize) {
      RotationExact(saves, maxHistorySize);
      RotatesLast(saves, maxHistorySize);
    }
  }

  /** Increasing times of one width, such as all of ten digits, always sort as they should. */
  lemma OneWidthRotates(saves: seq<Saved>, maxHistorySize: nat)
    requires Ordered(saves)
    requires forall i, j | 0 <= i < j < |saves| :: |Print(saves[i].timestamp)| == |Print(saves[j].timestamp)|
    ensures Rotates(saves, maxHistorySize)
  {
    RotationExact(saves, maxHistorySize);
    forall j, k | 1 <= j < k < |saves| ensures SortsBefore(saves[j].timestamp, saves[k].timestamp) {
      assert Cut(saves[k].timestamp, 0) == saves[k].timestamp;
    }
  }

  /** The names spelled out. */
  lemma FileNames()
    ensures Name(9_999_999_999) == "9999999999" + ".state" && Name(10_000_000_000) == "10000000000" + ".state"
  {
    PrintNines();
    PrintTen();
  }

  lemma Append(q: nat, d: nat)
    requires 0 < q && d < 10
    ensures Print(10 * q + d) == Print(q) + [Digit(d)]
  {}

  lemma PrintNines()
    ensures Print(9_999_999_999) == "9999999999"
  {
    var nine := [Digit(9)];
    assert nine == "9" && Print(9) == nine;
    hide *;
    Append(9, 9);
    Append(99, 9);
    Append(999, 9);
    Append(9_999, 9);
    Append(99_999, 9);
    Append(999_999, 9);
    Append(9_999_999, 9);
    Append(99_999_999, 9);
    Append(999_999_999, 9);
    assert "9" + nine + nine + nine + nine == "99999";
    assert "99999" + nine + nine + nine + nine + nine == "9999999999";
  }

  lemma PrintTen()
    ensures Print(10_000_000_000) == "10000000000"
  {
    var zero := [Digit(0)];
    assert zero == "0" && Print(1) == "1";
    hide *;
    Append(1, 0);
    Append(10, 0);
    Append(100, 0);
    Append(1_000, 0);
    Append(10_000, 0);
    Append(100_000, 0);
    Append(1_000_000, 0);
    Append(10_000_000, 0);
    Append(100_000_000, 0);
    Append(1_000_000_000, 0);
    assert "1" + zero + zero + zero + zero + zero == "100000";
    assert "100000" + zero + zero + zero + zero + zero == "10000000000";
  }

  /** With a history of one file, the save at the first time of eleven digits removes the newer file. */
  lemma NewerFileGoes(a: Bytes, b: Bytes, c: Bytes)
    ensures var saves := [Saved(9_999_999_998, a), Saved(9_999_999_999, b), Saved(10_000_000_000, c)];
      Ordered(saves) && Directory(saves, 1) == map[CURRENT := c, Name(9_999_999_999) := a] &&
      Expected(saves, 1) == map[CURRENT := c, Name(10_000_000_000) := b]
  {
    hide *;
    ElevenDigits();
    NextWidthSortsFirst(10);
    var s1, s2, s3 := Saved(9_999_999_998, a), Saved(9_999_999_999, b), Saved(10_000_000_000, c);
    OrderedThree(s1, s2, s3);
    ThreeSaves(s1, s2, s3);
  }

  lemma ElevenDigits()
    ensures Pow10(10) == 10_000_000_000
  {}

  lemma ThreeSaves(s1: Saved, s2: Saved, s3: Saved)
    requires LexLess(Name(s3.timestamp), Name(s2.timestamp)) && Name(s3.timestamp) != Name(s2.timestamp)
    ensures Directory([s1, s2, s3], 1) == map[CURRENT := s3.data, Name(s2.timestamp) := s1.data]
    ensures Expected([s1, s2, s3], 1) == map[CURRENT := s3.data, Name(s3.timestamp) := s2.data]
  {
    var n2, n3 := Name(s2.timestamp), Name(s3.timestamp);
    NotCurrent(s2.timestamp);
    NotCurrent(s3.timestamp);
    ExpectedOfThree(s1, s2, s3);
    hide *;
    TrimOne(n2, s1.data);
    TrimTwo(n2, s1.data, n3, s2.data);
    DirectoryStep([], s1, 1);
    DirectoryStep([s1], s2, 1);
    DirectoryStep([s1, s2], s3, 1);
    assert [] + [s1] == [s1] && [s1] + [s2] == [s1, s2] && [s1, s2] + [s3] == [s1, s2, s3];
    RenamedOne(s1.data, s1.timestamp);
    RenamedOne(s1.data, s2.timestamp);
    RenamedTwo(n2, s1.data, s2.data, s3.timestamp);
    assert map[n2 := s1.data][CURRENT := s3.data] == map[CURRENT := s3.data, n2 := s1.data];
  }

  lemma OrderedThree(s1: Saved, s2: Saved, s3: Saved)
    requires s1.timestamp < s2.timestamp < s3.timestamp
    ensures Ordered([s1, s2, s3])
  {}

  lemma ExpectedOfThree(s1: Saved, s2: Saved, s3: Saved)
    ensures Expected([s1, s2, s3], 1) == map[CURRENT := s3.data, Name(s3.timestamp) := s2.data]
  {
    hide Name;
    NotCurrent(s3.timestamp);
    assert Archive([s1, s2, s3], 3) == map[];
  }

  lemma RenamedOne(a: Bytes, timestamp: nat)
    ensures Renamed(map[], timestamp) == map[] && map[][CURRENT := a] == map[CURRENT := a]
    ensures Renamed(map[CURRENT := a], timestamp) == map[Name(timestamp) := a]
  {}

  lemma RenamedTwo(n: string, a: Bytes, b: Bytes, timestamp: nat)
    requires n != CURRENT && Name(timestamp) != n
    ensures map[n := a][CURRENT := b] == map[CURRENT := b, n := a]
    ensures Renamed(map[CURRENT := b, n := a], timestamp) == map[n := a, Name(timestamp) := b]
  {
    hide Name;
  }

  lemma TrimOne(n: string, a: Bytes)
    requires HasExtension(n)
    ensures Trimmed(map[], 1) == map[] && Directory([], 1) == map[] && Trimmed(map[n := a], 1) == map[n := a]
  {
    AllAreStates(map[]);
    AllAreStates(map[n := a]);
    hide HasExtension, States;
    assert map[n := a].Keys == {n};
  }

  lemma TrimTwo(n: string, a: Bytes, m: string, b: Bytes)
    requires HasExtension(n) && HasExtension(m) && LexLess(m, n) && m != n
    ensures Trimmed(map[n := a, m := b], 1) == map[n := a]
  {
    hide *;
    var files := map[n := a, m := b];
    AllAreStates(files);
    assert files.Keys == {n, m};
    FirstOfTwo(n, m);
    TrimmedByOldest(files, 1, m);
    assert files - {m} == map[n := a];
  }

  lemma FirstOfTwo(n: string, m: string)
    requires LexLess(m, n) && m != n
    ensures |{n, m}| == 2 && IsOldest({n, m}, m)
  {
    hide LexLess;
  }

  // ----- Save and Load

  class SaveHistory {
    var files: map<string, Bytes>
    const maxHistorySize: nat
    ghost var saves: seq<Saved>  // every successful save so far

    ghost predicate Valid()
      reads this
    {
      files == Directory(saves, maxHistorySize)
    }

    constructor (maxHistorySize: nat)
      ensures Valid() && saves == [] && this.maxHistorySize == maxHistorySize
    {
      this.maxHistorySize := maxHistorySize;
      files, saves := map[], [];
    }

    /** `data` is what the core serialized, if it could. */
    method Save(data: Option<Bytes>, timestamp: nat)
      requires Valid()
      modifies this
      ensures Valid()
      ensures saves == old(saves) + if data.Some? then [Saved(timestamp, data.value)] else []
      ensures Ordered(saves) && Sortable(saves, maxHistorySize) ==> files == Expected(saves, maxHistorySize)
    {
      if data.Some? {
        hide Renamed, Trimmed, Directory;
        MoveCurrent(timestamp);
        RemoveOldTemporaries();
        files := files[CURRENT := data.value];
        DirectoryStep(saves, Saved(timestamp, data.value), maxHistorySize);
        saves := saves + [Saved(timestamp, data.value)];
      }
      ExpectedWhenSortable(saves, maxHistorySize);
    }

    /** An existing current state is renamed after the time. */
    method MoveCurrent(timestamp: nat)
      modifies this`files
      ensures files == Renamed(old(files), timestamp)
    {
      if CURRENT in files {
        files := (files - {CURRENT})[Name(timestamp) := files[CURRENT]];
      }
    }

    /** Of more than maxHistorySize files the first one by name is deleted. */
    method RemoveOldTemporaries()
      modifies this`files
      ensures files == Trimmed(old(files), maxHistorySize)
    {
      hide HasExtension, IsOldest;
      var temporaryStates := set n | n in files && HasExtension(n) && n != "current";
      assert temporaryStates == States(files);
      if |temporaryStates| > maxHistorySize {
        var oldest := Oldest(temporaryStates);
        TrimmedByOldest(files, maxHistorySize, oldest);
        files := files - {oldest};
      }
    }

    /** The state the emulator starts from: the latest successful save. */
    method Load() returns (data: Option<Bytes>)
      requires Valid()
      ensures data == if saves == [] then None else Some(saves[|saves| - 1].data)
    {
      if CURRENT !in files {
        return None;
      }
      data := Some(files[CURRENT]);
    }
  }
}
