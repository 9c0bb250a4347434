/** The parts of Go's `strings` and `sort` packages the services rely on.
    A string is a sequence of Unicode code points. */
module Text {

  // ---------- strings.TrimSpace ----------

  predicate IsSpace(c: char) {
    || 0x09 <= c as int <= 0x0D
    || 0x2000 <= c as int <= 0x200A
    || c as int in {0x20, 0x85, 0xA0, 0x1680, 0x2028, 0x2029, 0x202F, 0x205F, 0x3000}
  }

  predicate Trimmed(s: string) {
    s != "" ==> !IsSpace(s[0]) && !IsSpace(s[|s| - 1])
  }

  predicate Blank(s: string) {
    TrimSpace(s) == ""
  }

  function TrimLeft(s: string): (t: string)
    ensures t != "" ==> s != "" && !IsSpace(t[0]) && t[|t| - 1] == s[|s| - 1]
    ensures |t| <= |s|
  {
    if s != "" && IsSpace(s[0]) then TrimLeft(s[1..]) else s
  }

  function TrimRight(s: string): (t: string)
    ensures t <= s
    ensures t != "" ==> !IsSpace(t[|t| - 1])
  {
    if s != "" && IsSpace(s[|s| - 1]) then TrimRight(s[..|s| - 1]) else s
  }

  function TrimSpace(s: string): (t: string)
    ensures Trimmed(t)
    ensures Trimmed(s) ==> t == s
  {
    TrimRight(TrimLeft(s))
  }

  predicate AllSpace(s: string) {
    forall c :: c in s ==> IsSpace(c)
  }

  /** Trimming takes white space off both ends and nothing else. */
  lemma TrimTakesSpace(s: string) returns (left: string, right: string)
    ensures AllSpace(left) && AllSpace(right) && s == left + TrimSpace(s) + right
  {
    hide IsSpace;
    left := LeftSpace(s);
    right := RightSpace(TrimLeft(s));
  }

  lemma {:induction false} LeftSpace(s: string) returns (left: string)
    ensures AllSpace(left) && s == left + TrimLeft(s)
  {
    left := "";
    if s != "" && IsSpace(s[0]) {
      var rest := LeftSpace(s[1..]);
      left := [s[0]] + rest;
      assert s == [s[0]] + s[1..];
    } else {
      assert "" + s == s;
    }
  }

  lemma {:induction false} RightSpace(s: string) returns (right: string)
    ensures AllSpace(right) && s == TrimRight(s) + right
  {
    right := "";
    if s != "" && IsSpace(s[|s| - 1]) {
      var rest := RightSpace(s[..|s| - 1]);
      right := rest + [s[|s| - 1]];
      assert s == s[..|s| - 1] + [s[|s| - 1]];
    } else {
      assert s + "" == s;
    }
  }

  /** White space around a trimmed, non-empty core is exactly what is removed. */
  lemma {:induction false} TrimPadding(left: string, core: string, right: string)
    requires AllSpace(left) && AllSpace(right) && core != "" && Trimmed(core)
    ensures TrimSpace(left + core + right) == core
  {
    hide IsSpace;
    if left != "" {
      assert (left + core + right)[1..] == left[1..] + core + right;
      assert IsSpace(left[0]);
      TrimPadding(left[1..], core, right);
    } else if right != "" {
      var s := core + right;
      assert left + core + right == s && s[0] == core[0] && TrimLeft(s) == s;
      assert s[..|s| - 1] == core + right[..|right| - 1] == left + core + right[..|right| - 1];
      assert IsSpace(right[|right| - 1]) && s[|s| - 1] == right[|right| - 1];
      TrimPadding(left, core, right[..|right| - 1]);
      assert TrimLeft(s[..|s| - 1]) == s[..|s| - 1];
    } else {
      assert left + core + right == core;
    }
  }

  // ---------- Go's string order and sort.Strings / sort.Slice ----------

  /** `a < b` on Go strings: lexicographic. */
  predicate Less(a: string, b: string) {
    b != "" && (a == "" || a[0] < b[0] || (a[0] == b[0] && Less(a[1..], b[1..])))
  }

  lemma SamePrefix(a: string, b: string, i: nat)
    requires i <= |a| && i <= |b| && a[..i] == b[..i]
    ensures i > 0 ==> a[0] == b[0]
  {
    if i > 0 { assert a[0] == a[..i][0] && b[0] == b[..i][0]; }
  }

  /** The first difference decides; a proper prefix comes first. */
  lemma {:induction false} LessIff(a: string, b: string)
    ensures Less(a, b) <==>
              exists i :: 0 <= i <= |a| && i < |b| && a[..i] == b[..i] && (i == |a| || a[i] < b[i])
  {
    if a != "" && b != "" && a[0] == b[0] {
      LessIff(a[1..], b[1..]);
      if Less(a, b) {
        var i :| 0 <= i <= |a[1..]| && i < |b[1..]| && a[1..][..i] == b[1..][..i] && (i == |a[1..]| || a[1..][i] < b[1..][i]);
        assert a[..i + 1] == [a[0]] + a[1..][..i] && b[..i + 1] == [b[0]] + b[1..][..i];
      }
      if i :| 0 <= i <= |a| && i < |b| && a[..i] == b[..i] && (i == |a| || a[i] < b[i]) {
        assert i > 0;
        assert a[1..][..i - 1] == a[..i][1..] && b[1..][..i - 1] == b[..i][1..];
      }
    } else if b != "" {
      if i :| 0 <= i <= |a| && i < |b| && a[..i] == b[..i] && (i == |a| || a[i] < b[i]) {
        SamePrefix(a, b, i);
      }
      assert a[..0] == b[..0];
    }
  }

  lemma {:induction false} LessTransitive(a: string, b: string, c: string)
    requires Less(a, b) && Less(b, c)
    ensures Less(a, c)
  {
    if a != "" && a[0] == b[0] && b[0] == c[0] {
      LessTransitive(a[1..], b[1..], c[1..]);
    }
  }

  lemma {:induction false} LessTotal(a: string, b: string)
    ensures !(Less(a, b) && Less(b, a))
    ensures Less(a, b) || Less(b, a) <==> a != b
  {
    if a != "" && b != "" {
      LessTotal(a[1..], b[1..]);
      assert a == [a[0]] + a[1..] && b == [b[0]] + b[1..];
    }
  }

  ghost predicate StrictlySorted<T(!new)>(xs: seq<T>, key: T -> string) {
    forall i, j :: 0 <= i < j < |xs| ==> Less(key(xs[i]), key(xs[j]))
  }

  ghost predicate DistinctKeys<T(!new)>(xs: seq<T>, key: T -> string) {
    forall i, j :: 0 <= i < j < |xs| ==> key(xs[i]) != key(xs[j])
  }

  /** One insertion of an insertion sort by key. */
  function Insert<T(!new)>(x: T, xs: seq<T>, key: T -> string): (ys: seq<T>)
    ensures forall y :: y in ys <==> y == x || y in xs
    ensures |ys| == |xs| + 1
  {
    if xs == [] || Less(key(x), key(xs[0])) then [x] + xs else [xs[0]] + Insert(x, xs[1..], key)
  }

  /** The library sort, as far as its result on distinct keys is concerned. */
  function Sort<T(!new)>(xs: seq<T>, key: T -> string): (ys: seq<T>)
    ensures forall y :: y in ys <==> y in xs
    ensures |ys| == |xs|
  {
    if xs == [] then [] else Insert(xs[0], Sort(xs[1..], key), key)
  }

  lemma {:induction false} InsertSorted<T(!new)>(x: T, xs: seq<T>, key: T -> string)
    requires StrictlySorted(xs, key)
    requires forall y :: y in xs ==> key(y) != key(x)
    ensures StrictlySorted(Insert(x, xs, key), key)
  {
    var ys := Insert(x, xs, key);
    if xs == [] {
    } else if Less(key(x), key(xs[0])) {
      forall i, j | 0 <= i < j < |ys| ensures Less(key(ys[i]), key(ys[j])) {
        if i == 0 && j > 1 { LessTransitive(key(x), key(xs[0]), key(xs[j - 1])); }
      }
    } else {
      InsertSorted(x, xs[1..], key);
      var rest := Insert(x, xs[1..], key);
      LessTotal(key(x), key(xs[0]));
      forall i, j | 0 <= i < j < |ys| ensures Less(key(ys[i]), key(ys[j])) {
        if i == 0 {
          assert rest[j - 1] in rest;
          if rest[j - 1] != x {
            var k :| 0 <= k < |xs[1..]| && xs[1..][k] == rest[j - 1];
            assert xs[k + 1] == rest[j - 1];
          }
        } else {
          assert ys[i] == rest[i - 1] && ys[j] == rest[j - 1];
        }
      }
    }
  }

  /** Sorting a sequence whose keys are distinct gives strictly increasing keys. */
  lemma {:induction false} SortSorts<T(!new)>(xs: seq<T>, key: T -> string)
    requires DistinctKeys(xs, key)
    ensures StrictlySorted(Sort(xs, key), key)
  {
    if xs != [] {
      SortSorts(xs[1..], key);
      forall y | y in Sort(xs[1..], key) ensures key(y) != key(xs[0]) {
        var k :| 0 <= k < |xs[1..]| && xs[1..][k] == y;
        assert xs[k + 1] == y;
      }
      InsertSorted(xs[0], Sort(xs[1..], key), key);
    }
  }

  /** A strictly sorted sequence is determined by its set of elements: whatever order
      a Go map yields its keys in, sorting them gives one result. */
  lemma {:induction false} SortedUnique<T(!new)>(xs: seq<T>, ys: seq<T>, key: T -> string)
    requires StrictlySorted(xs, key) && StrictlySorted(ys, key)
    requires forall e :: e in xs <==> e in ys
    ensures xs == ys
  {
    assert (xs != [] ==> xs[0] in xs) && (ys != [] ==> ys[0] in ys);
    if xs != [] && ys != [] {
      assert xs[0] in ys && ys[0] in xs;
      var i :| 0 <= i < |xs| && xs[i] == ys[0];
      var j :| 0 <= j < |ys| && ys[j] == xs[0];
      LessTotal(key(xs[0]), key(ys[0]));
      assert i == 0 && j == 0;
      forall e ensures e in xs[1..] <==> e in ys[1..] {
        TailMember(xs, key, e);
        TailMember(ys, key, e);
      }
      SortedUnique(xs[1..], ys[1..], key);
      assert xs == [xs[0]] + xs[1..] && ys == [ys[0]] + ys[1..];
    }
  }

  lemma TailMember<T(!new)>(xs: seq<T>, key: T -> string, e: T)
    requires xs != [] && StrictlySorted(xs, key)
    ensures e in xs[1..] <==> e in xs && e != xs[0]
  {
    if e in xs[1..] {
      var k :| 0 <= k < |xs[1..]| && xs[1..][k] == e;
      assert xs[k + 1] == e;
      LessTotal(key(xs[0]), key(e));
    }
  }

  /** The strictly sorted listing of a finite set of strings. */
  ghost function SortedListing(keys: set<string>): (xs: seq<string>)
    ensures StrictlySorted(xs, Id)
    ensures forall k :: k in xs <==> k in keys
  {
    if keys == {} then [] else
      var k :| k in keys;
      var rest := SortedListing(keys - {k});
      InsertSorted(k, rest, Id);
      Insert(k, rest, Id)
  }

  function Id(s: string): string { s }
}
