/** Where a received file goes (QuickShareSession::safeDestination): inside the download directory,
    on a path that is neither on disk nor promised to another file of the same session. */
module Destination {

  type Path = string

  /** QFileInfo(name).fileName(): what follows the last slash. */
  function FileName(name: string): (r: string)
    ensures '/' !in r
  {
    if name == [] then []
    else if name[|name| - 1] == '/' then []
    else FileName(name[..|name| - 1]) + [name[|name| - 1]]
  }

  /** The position of the last dot, or the length when there is none. */
  function LastDot(name: string): (r: nat)
    ensures r <= |name|
    ensures r < |name| ==> name[r] == '.'
  {
    if name == [] then 0
    else if name[|name| - 1] == '.' then |name| - 1
    else
      var before := LastDot(name[..|name| - 1]);
      if before == |name| - 1 then |name| else before
  }

  function CompleteBaseName(name: string): string { name[..LastDot(name)] }

  function Suffix(name: string): string {
    if LastDot(name) == |name| then [] else name[LastDot(name) + 1..]
  }

  function SafeName(name: string): (r: string)
    ensures '/' !in r && r != "" && r != "." && r != ".."
  {
    var safe := FileName(name);
    if safe == "" || safe == "." || safe == ".." then "ricevuto.bin" else safe
  }

  function Decimal(n: nat): (r: string)
    ensures |r| > 0 && forall c :: c in r ==> '0' <= c <= '9'
  {
    var d: string := [['0', '1', '2', '3', '4', '5', '6', '7', '8', '9'][n % 10]];
    if n < 10 then d else Decimal(n / 10) + d
  }

  function Candidate(safe: string, i: nat): (r: string)
    ensures '/' !in safe ==> '/' !in r
  {
    CompleteBaseName(safe) + " (" + Decimal(i) + ")" + (if Suffix(safe) == "" then "" else "." + Suffix(safe))
  }

  function In(directory: Path, leaf: string): Path { directory + "/" + leaf }

  lemma {:induction false} DecimalInjective(m: nat, n: nat)
    requires Decimal(m) == Decimal(n)
    ensures m == n
  {
    var a, b := Decimal(m), Decimal(n);
    assert a[|a| - 1] == b[|b| - 1];
    assert m % 10 == n % 10;
    if m >= 10 && n >= 10 {
      assert a[..|a| - 1] == Decimal(m / 10);
      assert b[..|b| - 1] == Decimal(n / 10);
      DecimalInjective(m / 10, n / 10);
    }
  }

  function Head(directory: Path, safe: string): string { directory + "/" + CompleteBaseName(safe) + " (" }

  function Tail(safe: string): string { ")" + (if Suffix(safe) == "" then "" else "." + Suffix(safe)) }

  lemma CandidateParts(directory: Path, safe: string, i: nat)
    ensures In(directory, Candidate(safe, i)) == Head(directory, safe) + Decimal(i) + Tail(safe)
  {
  }

  lemma Middle(head: string, a: string, b: string, tail: string)
    requires head + a + tail == head + b + tail
    ensures a == b
  {
    var s := head + a + tail;
    assert |head + a + tail| == |head + b + tail|;
    assert s[|head|..|s| - |tail|] == a;
    assert s[|head|..|s| - |tail|] == b;
  }

  /** The numbered paths tried one after the other. */
  function Numbered(directory: Path, safe: string): nat -> Path {
    (i: nat) => In(directory, Candidate(safe, i))
  }

  ghost predicate Injective(f: nat -> Path) {
    forall i: nat, j: nat :: f(i) == f(j) ==> i == j
  }

  lemma NumberedInjective(directory: Path, safe: string)
    ensures Injective(Numbered(directory, safe))
  {
    var f := Numbered(directory, safe);
    forall i: nat, j: nat | f(i) == f(j)
      ensures i == j
    {
      CandidateParts(directory, safe, i);
      CandidateParts(directory, safe, j);
      Middle(Head(directory, safe), Decimal(i), Decimal(j), Tail(safe));
      DecimalInjective(i, j);
    }
  }

  // ---------------------------------------------------------------- the search ends

  /** f(1) .. f(n), as a set. */
  ghost function Tried(f: nat -> Path, n: nat): set<Path> {
    set i | 0 < i <= n :: f(i)
  }

  lemma TriedNext(f: nat -> Path, n: nat)
    ensures Tried(f, n + 1) == Tried(f, n) + {f(n + 1)}
  {
  }

  lemma {:induction false} TriedSize(f: nat -> Path, n: nat)
    requires Injective(f)
    ensures |Tried(f, n)| == n
  {
    if n > 0 {
      TriedSize(f, n - 1);
      TriedNext(f, n - 1);
      assert f(n) !in Tried(f, n - 1);
    } else {
      assert Tried(f, 0) == {};
    }
  }

  lemma SubsetSize<T>(a: set<T>, b: set<T>)
    requires a <= b
    ensures |a| <= |b|
  {
    assert b == a + (b - a);
  }

  /** More candidates than taken paths cannot all be taken. */
  lemma Pigeonhole(f: nat -> Path, taken: set<Path>, n: nat)
    requires Injective(f) && Tried(f, n) <= taken
    ensures n <= |taken|
  {
    TriedSize(f, n);
    SubsetSize(Tried(f, n), taken);
  }

  /** The number of the first free candidate from i on. */
  function FirstFree(f: nat -> Path, taken: set<Path>, i: nat): (k: nat)
    requires Injective(f) && i > 0 && Tried(f, i - 1) <= taken
    ensures f(k) !in taken && k >= i
    ensures forall j :: i <= j < k ==> f(j) in taken
    decreases |taken| + 1 - i
  {
    Pigeonhole(f, taken, i - 1);
    if f(i) !in taken then i
    else
      TriedNext(f, i - 1);
      Pigeonhole(f, taken, i);
      FirstFree(f, taken, i + 1)
  }

  /** The plain name when it is free, otherwise the free numbered one with the smallest number. */
  function Choose(directory: Path, taken: set<Path>, name: string): (r: Path)
    ensures r !in taken
  {
    var safe := SafeName(name);
    if In(directory, safe) !in taken then In(directory, safe)
    else
      NumberedInjective(directory, safe);
      assert Tried(Numbered(directory, safe), 0) == {};
      Numbered(directory, safe)(FirstFree(Numbered(directory, safe), taken, 1))
  }

  /** The chosen path is a plain leaf of the download directory, whatever name the peer announced. */
  lemma ChosenInside(directory: Path, taken: set<Path>, name: string)
    ensures exists leaf ::
      && Choose(directory, taken, name) == In(directory, leaf)
      && '/' !in leaf && leaf != "" && leaf != "." && leaf != ".."
  {
    var safe := SafeName(name);
    if In(directory, safe) in taken {
      NumberedInjective(directory, safe);
      assert Tried(Numbered(directory, safe), 0) == {};
      var k := FirstFree(Numbered(directory, safe), taken, 1);
      assert ')' in Candidate(safe, k);
      assert Choose(directory, taken, name) == In(directory, Candidate(safe, k));
    }
  }

  // ---------------------------------------------------------------- what the names are

  function ValueOf(digits: string): nat {
    if digits == [] then 0
    else ValueOf(digits[..|digits| - 1]) * 10 + Digit(digits[|digits| - 1])
  }

  function Digit(c: char): nat { if '0' <= c <= '9' then (c - '0') as nat else 0 }

  /** Decimal notation, read back. */
  lemma {:induction false} DecimalValue(n: nat)
    ensures ValueOf(Decimal(n)) == n
  {
    var d := ['0', '1', '2', '3', '4', '5', '6', '7', '8', '9'][n % 10];
    assert Digit(d) == n % 10;
    if n < 10 {
      assert Decimal(n) == [d] && [d][..0] == [];
      assert ValueOf([]) == 0;
    } else {
      DecimalValue(n / 10);
      assert (Decimal(n / 10) + [d])[..|Decimal(n / 10)|] == Decimal(n / 10);
    }
  }

  lemma {:induction false} LastDotOf(stem: string, suffix: string)
    requires '.' !in suffix
    ensures LastDot(stem + "." + suffix) == |stem|
  {
    var name := stem + "." + suffix;
    if suffix == "" {
      assert name[|name| - 1] == '.';
    } else {
      var n := |suffix| - 1;
      assert name[|name| - 1] == suffix[n];
      assert name[..|name| - 1] == stem + "." + suffix[..n];
      LastDotOf(stem, suffix[..n]);
    }
  }

  lemma {:induction false} NoLastDot(name: string)
    requires '.' !in name
    ensures LastDot(name) == |name|
  {
    if name != [] {
      assert name[|name| - 1] in name;
      NoLastDot(name[..|name| - 1]);
    }
  }

  /** The number goes in parentheses behind a blank, in front of the last dot and what follows it; a dot with
      nothing behind it is dropped. */
  lemma NumberedName(stem: string, suffix: string, i: nat)
    requires '.' !in suffix
    ensures Candidate(stem + "." + suffix, i)
         == stem + " (" + Decimal(i) + ")" + if suffix == "" then "" else "." + suffix
    ensures Candidate(suffix, i) == suffix + " (" + Decimal(i) + ")"
  {
    hide LastDot, Decimal;
    LastDotOf(stem, suffix);
    var name := stem + "." + suffix;
    assert name[..|stem|] == stem && name[|stem| + 1..] == suffix;
    NoLastDot(suffix);
    assert suffix[..|suffix|] == suffix;
  }

  /** Only what follows the last slash of the announced name counts. */
  lemma {:induction false} LeafOnly(before: string, leaf: string)
    requires '/' !in leaf
    ensures FileName(leaf) == leaf && FileName(before + "/" + leaf) == leaf
    decreases |leaf|
  {
    var name := before + "/" + leaf;
    if leaf != "" {
      var n := |leaf| - 1;
      assert leaf[n] in leaf && name[|name| - 1] == leaf[n];
      assert name[..|name| - 1] == before + "/" + leaf[..n];
      LeafOnly(before, leaf[..n]);
      assert leaf == leaf[..n] + [leaf[n]];
    }
  }

  /** The plain name if it is free, and else the first free one among the numbered, from 1 on. */
  lemma FirstFreeName(directory: Path, taken: set<Path>, leaf: string)
    requires '/' !in leaf && leaf != "" && leaf != "." && leaf != ".."
    ensures In(directory, leaf) !in taken ==> Choose(directory, taken, leaf) == In(directory, leaf)
    ensures In(directory, leaf) in taken ==> exists k: nat ::
      && k > 0 && Choose(directory, taken, leaf) == In(directory, Candidate(leaf, k))
      && forall j: nat :: 0 < j < k ==> In(directory, Candidate(leaf, j)) in taken
  {
    hide Candidate;
    LeafOnly("", leaf);
    if In(directory, leaf) in taken {
      NumberedInjective(directory, leaf);
      var f := Numbered(directory, leaf);
      assert Tried(f, 0) == {};
      var k := FirstFree(f, taken, 1);
      assert forall j: nat :: 0 < j < k ==> In(directory, Candidate(leaf, j)) == f(j);
      assert Choose(directory, taken, leaf) == In(directory, Candidate(leaf, k));
    }
  }

  /** The loop of the source; it ends because only finitely many paths are taken. */
  method SafeDestination(directory: Path, onDisk: set<Path>, reserved: set<Path>, name: string)
      returns (path: Path, reserved': set<Path>)
    ensures path == Choose(directory, onDisk + reserved, name)
    ensures path !in onDisk && path !in reserved && reserved' == reserved + {path}
  {
    var safe := FileName(name);
    if safe == "" || safe == "." || safe == ".." {
      safe := "ricevuto.bin";
    }
    ghost var taken := onDisk + reserved;
    path := In(directory, safe);
    if path !in onDisk && path !in reserved {
      return path, reserved + {path};
    }
    ghost var f := Numbered(directory, safe);
    NumberedInjective(directory, safe);
    assert Tried(f, 0) == {};
    var i := 1;
    while true
      invariant i > 0 && Tried(f, i - 1) <= taken
      invariant FirstFree(f, taken, 1) == FirstFree(f, taken, i)
      decreases |taken| + 1 - i
    {
      Pigeonhole(f, taken, i - 1);
      var candidate := In(directory, Candidate(safe, i));
      assert candidate == f(i);
      if candidate !in onDisk && candidate !in reserved {
        return candidate, reserved + {candidate};
      }
      TriedNext(f, i - 1);
      Pigeonhole(f, taken, i);
      i := i + 1;
    }
  }
}
