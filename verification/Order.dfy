/** Byte-string order, and the sort every canonical list of the update goes through. */
module Order {
  import opened Wrappers

  /** Lexicographic order, the order Rust gives byte slices. */
  predicate Less(a: seq<int>, b: seq<int>) {
    if b == [] then false
    else if a == [] then true
    else if a[0] != b[0] then a[0] < b[0]
    else Less(a[1..], b[1..])
  }

  /** What comes first, exactly: a proper prefix, and else what is smaller where the two first part. */
  lemma {:induction false} LessExact(a: seq<int>, b: seq<int>, k: nat)
    requires k <= |a| && k <= |b| && a[..k] == b[..k]
    requires k == |a| || k == |b| || a[k] != b[k]
    ensures Less(a, b) <==> k < |b| && (k == |a| || a[k] < b[k])
  {
    if k > 0 {
      assert a[0] == a[..k][0] == b[..k][0] == b[0];
      assert a[1..][..k - 1] == a[..k][1..] == b[..k][1..] == b[1..][..k - 1];
      LessExact(a[1..], b[1..], k - 1);
    }
  }

  lemma {:induction false} LessIrreflexive(a: seq<int>)
    ensures !Less(a, a)
  {
    if a != [] { LessIrreflexive(a[1..]); }
  }

  lemma {:induction false} LessTransitive(a: seq<int>, b: seq<int>, c: seq<int>)
    requires Less(a, b) && Less(b, c)
    ensures Less(a, c)
  {
    if a != [] && a[0] == b[0] == c[0] { LessTransitive(a[1..], b[1..], c[1..]); }
  }

  lemma {:induction false} LessTotal(a: seq<int>, b: seq<int>)
    ensures Less(a, b) || a == b || Less(b, a)
  {
    if a != [] && b != [] && a[0] == b[0] {
      LessTotal(a[1..], b[1..]);
      assert a == [a[0]] + a[1..] && b == [b[0]] + b[1..];
    }
  }

  lemma LessAsymmetric(a: seq<int>, b: seq<int>)
    requires Less(a, b)
    ensures !Less(b, a) && a != b
  {
    LessIrreflexive(a);
    if Less(b, a) { LessTransitive(a, b, a); }
  }

  /** Text under the same order, character by character. */
  function Codes(name: string): seq<int> { Map((c: char) => c as int, name) }

  lemma CodesDistinguish(a: string, b: string)
    ensures Codes(a) == Codes(b) <==> a == b
  {
    if Codes(a) == Codes(b) {
      assert |a| == |Codes(a)| == |b|;
      forall i | 0 <= i < |a| ensures a[i] == b[i] { assert Codes(a)[i] == Codes(b)[i]; }
    }
  }

  /** Names come by their characters, a name before those it begins. */
  lemma NameOrder(a: string, b: string, k: nat)
    requires k <= |a| && k <= |b| && a[..k] == b[..k]
    requires k == |a| || k == |b| || a[k] != b[k]
    ensures Less(Codes(a), Codes(b)) <==> k < |b| && (k == |a| || a[k] < b[k])
  {
    forall i | 0 <= i < k ensures a[i] == b[i] { assert a[..k][i] == b[..k][i]; }
    assert Codes(a)[..k] == Codes(b)[..k];
    LessExact(Codes(a), Codes(b), k);
  }

  /** The first of some names, in the order an ordered map is walked. */
  predicate IsLeast(x: string, s: set<string>) {
    x in s && forall y :: y in s ==> y == x || Less(Codes(x), Codes(y))
  }

  lemma {:induction false} LeastExists(s: set<string>)
    requires s != {}
    ensures exists x :: IsLeast(x, s)
  {
    var y :| y in s;
    if s == {y} {
      assert IsLeast(y, s);
    } else {
      LeastExists(s - {y});
      var x :| IsLeast(x, s - {y});
      LessTotal(Codes(x), Codes(y));
      CodesDistinguish(x, y);
      if Less(Codes(x), Codes(y)) {
        assert IsLeast(x, s);
      } else {
        forall z | z in s && z != y ensures Less(Codes(y), Codes(z)) {
          if z != x { LessTransitive(Codes(y), Codes(x), Codes(z)); }
        }
        assert IsLeast(y, s);
      }
    }
  }

  lemma LeastUnique(s: set<string>, x: string, y: string)
    requires IsLeast(x, s) && IsLeast(y, s)
    ensures x == y
  {
    if x != y { LessAsymmetric(Codes(x), Codes(y)); }
  }

  function Least(s: set<string>): (x: string)
    requires s != {}
    ensures IsLeast(x, s)
  {
    LeastExists(s);
    assert forall x, y :: IsLeast(x, s) && IsLeast(y, s) ==> x == y by {
      forall x, y | IsLeast(x, s) && IsLeast(y, s) ensures x == y { LeastUnique(s, x, y); }
    }
    var x :| IsLeast(x, s);
    x
  }

  /** Strictly ascending: sorted with no repeat, the canonical form of a list. */
  predicate Strict<T>(s: seq<T>, key: T -> seq<int>) {
    forall i :: 0 < i < |s| ==> Less(key(s[i - 1]), key(s[i]))
  }

  /** The same, read left to right after an entry with key `prev`, as a parser checks it. */
  predicate StrictFrom<T>(prev: Option<seq<int>>, s: seq<T>, key: T -> seq<int>)
    decreases s
  {
    s == [] || ((prev.Some? ==> Less(prev.value, key(s[0]))) && StrictFrom(Some(key(s[0])), s[1..], key))
  }

  lemma {:induction false} StrictFromIsStrict<T>(prev: Option<seq<int>>, s: seq<T>, key: T -> seq<int>)
    ensures StrictFrom(prev, s, key) <==> Strict(s, key) && (prev.Some? && s != [] ==> Less(prev.value, key(s[0])))
    decreases s
  {
    if s != [] {
      StrictFromIsStrict(Some(key(s[0])), s[1..], key);
      if Strict(s[1..], key) && (|s| > 1 ==> Less(key(s[0]), key(s[1]))) {
        forall i | 0 < i < |s| ensures Less(key(s[i - 1]), key(s[i])) {
          if i > 1 { assert Less(key(s[1..][i - 2]), key(s[1..][i - 1])); }
        }
      }
      if Strict(s, key) {
        forall i | 0 < i < |s[1..]| ensures Less(key(s[1..][i - 1]), key(s[1..][i])) {
          assert Less(key(s[i]), key(s[i + 1]));
        }
      }
    }
  }

  lemma {:induction false} StrictPair<T>(s: seq<T>, key: T -> seq<int>, i: nat, j: nat)
    requires Strict(s, key) && i < j < |s|
    ensures Less(key(s[i]), key(s[j])) && key(s[i]) != key(s[j])
    decreases j
  {
    if i + 1 < j {
      StrictPair(s, key, i, j - 1);
      LessTransitive(key(s[i]), key(s[j - 1]), key(s[j]));
    }
    LessAsymmetric(key(s[i]), key(s[j]));
  }

  /** Put `x` into a sorted list after every entry whose key is not greater: one step of a stable sort. */
  function Insert<T>(s: seq<T>, x: T, key: T -> seq<int>): (r: seq<T>)
    ensures |r| == |s| + 1
  {
    if s == [] || !Less(key(x), key(s[|s| - 1])) then s + [x]
    else Insert(s[..|s| - 1], x, key) + [s[|s| - 1]]
  }

  /** The stable sort of a list by its key. */
  function SortBy<T>(s: seq<T>, key: T -> seq<int>): (r: seq<T>)
    ensures |r| == |s|
  {
    if s == [] then [] else Insert(SortBy(s[..|s| - 1], key), s[|s| - 1], key)
  }

  lemma {:induction false} InsertBag<T>(s: seq<T>, x: T, key: T -> seq<int>)
    ensures multiset(Insert(s, x, key)) == multiset(s) + multiset{x}
    decreases |s|
  {
    if s != [] && Less(key(x), key(s[|s| - 1])) {
      InsertBag(s[..|s| - 1], x, key);
      assert s == s[..|s| - 1] + [s[|s| - 1]];
    }
  }

  /** Sorting keeps every entry, however often it stands. */
  lemma {:induction false} SortByBag<T>(s: seq<T>, key: T -> seq<int>)
    ensures multiset(SortBy(s, key)) == multiset(s)
    decreases |s|
  {
    if s != [] {
      SortByBag(s[..|s| - 1], key);
      InsertBag(SortBy(s[..|s| - 1], key), s[|s| - 1], key);
      assert s == s[..|s| - 1] + [s[|s| - 1]];
    }
  }

  /** Ascending, repeats allowed. */
  predicate Weak<T>(s: seq<T>, key: T -> seq<int>) {
    forall i :: 0 < i < |s| ==> !Less(key(s[i]), key(s[i - 1]))
  }

  lemma {:induction false} InsertWeak<T>(s: seq<T>, x: T, key: T -> seq<int>)
    requires Weak(s, key)
    ensures Weak(Insert(s, x, key), key)
    ensures Insert(s, x, key)[|s|] == x || (s != [] && Insert(s, x, key)[|s|] == s[|s| - 1])
    decreases |s|
  {
    if s != [] && Less(key(x), key(s[|s| - 1])) {
      var front, last := s[..|s| - 1], s[|s| - 1];
      InsertWeak(front, x, key);
      var r := Insert(front, x, key);
      assert Insert(s, x, key) == r + [last];
      assert !Less(key(last), key(r[|r| - 1])) by {
        if r[|r| - 1] == x {
          LessAsymmetric(key(x), key(last));
        } else {
          assert !Less(key(s[|s| - 1]), key(s[|s| - 2]));
        }
      }
    }
  }

  lemma {:induction false} SortByWeak<T>(s: seq<T>, key: T -> seq<int>)
    ensures Weak(SortBy(s, key), key)
  {
    if s != [] {
      SortByWeak(s[..|s| - 1], key);
      InsertWeak(SortBy(s[..|s| - 1], key), s[|s| - 1], key);
    }
  }

  /** Whether two neighbours share a key, the one place a sorted list can show a repeat. */
  predicate Repeats<T>(s: seq<T>, key: T -> seq<int>) {
    exists i :: 0 < i < |s| && key(s[i - 1]) == key(s[i])
  }

  /** The first entry that shares its key with its neighbour, as a scan of windows of two finds it. */
  function FirstRepeat<T>(s: seq<T>, key: T -> seq<int>): (r: Option<T>)
    ensures r.Some? <==> Repeats(s, key)
  {
    if |s| < 2 then None
    else if key(s[0]) == key(s[1]) then
      assert key(s[1 - 1]) == key(s[1]);
      Some(s[0])
    else
      TailRepeats(s, key);
      FirstRepeat(s[1..], key)
  }

  lemma TailRepeats<T>(s: seq<T>, key: T -> seq<int>)
    requires |s| >= 2 && key(s[0]) != key(s[1])
    ensures Repeats(s, key) <==> Repeats(s[1..], key)
  {
    if i :| 0 < i < |s| && key(s[i - 1]) == key(s[i]) {
      assert i > 1 && key(s[1..][i - 1 - 1]) == key(s[1..][i - 1]);
    }
    if i :| 0 < i < |s[1..]| && key(s[1..][i - 1]) == key(s[1..][i]) {
      assert key(s[i + 1 - 1]) == key(s[i + 1]);
    }
  }

  /** No two entries share a key. */
  predicate Distinct<T>(s: seq<T>, key: T -> seq<int>) {
    forall i, j :: 0 <= i < j < |s| ==> key(s[i]) != key(s[j])
  }

  lemma {:induction false} DistinctOnce<T>(s: seq<T>, key: T -> seq<int>)
    ensures Distinct(s, key) <==> forall k :: multiset(Map(key, s))[k] <= 1
    decreases |s|
  {
    if s != [] {
      var keys, tail := Map(key, s), Map(key, s[1..]);
      DistinctOnce(s[1..], key);
      assert keys == [key(s[0])] + tail;
      if Distinct(s[1..], key) && key(s[0]) !in tail {
        forall i, j | 0 <= i < j < |s| ensures key(s[i]) != key(s[j]) {
          if i == 0 { assert tail[j - 1] == key(s[j]); } else { assert key(s[1..][i - 1]) != key(s[1..][j - 1]); }
        }
      }
      if Distinct(s, key) {
        assert Distinct(s[1..], key);
        assert key(s[0]) !in tail;
        assert forall k :: multiset(tail)[k] <= 1;
        assert key(s[0]) !in multiset(tail);
      }
      if k :| multiset(tail)[k] > 1 { assert multiset(keys)[k] > 1; }
      if key(s[0]) in tail {
        assert key(s[0]) in multiset(tail);
        assert multiset(keys)[key(s[0])] > 1;
      }
    }
  }

  lemma WeakUnrepeatedIsStrict<T>(s: seq<T>, key: T -> seq<int>)
    requires Weak(s, key)
    ensures Strict(s, key) <==> !Repeats(s, key)
  {
    forall i | 0 < i < |s|
      ensures Less(key(s[i - 1]), key(s[i])) <==> key(s[i - 1]) != key(s[i])
    {
      LessTotal(key(s[i - 1]), key(s[i]));
      LessIrreflexive(key(s[i]));
    }
  }

  lemma {:induction false} WeakLeast<T>(s: seq<T>, key: T -> seq<int>, j: nat)
    requires Weak(s, key) && j < |s|
    ensures !Less(key(s[j]), key(s[0]))
  {
    if j == 0 {
      LessIrreflexive(key(s[0]));
    } else {
      WeakLeast(s, key, j - 1);
      LessTotal(key(s[j - 1]), key(s[j]));
      if Less(key(s[j]), key(s[0])) && Less(key(s[j - 1]), key(s[j])) {
        LessTransitive(key(s[j - 1]), key(s[j]), key(s[0]));
      }
    }
  }

  function Self(k: seq<int>): seq<int> { k }

  lemma WeakTail<T>(s: seq<T>, key: T -> seq<int>)
    requires s != [] && Weak(s, key)
    ensures Weak(s[1..], key)
  {
    forall i | 0 < i < |s[1..]| ensures !Less(key(s[1..][i]), key(s[1..][i - 1])) {
      assert !Less(key(s[i + 1]), key(s[i]));
    }
  }

  lemma SameLeast(s: seq<seq<int>>, t: seq<seq<int>>)
    requires Weak(s, Self) && Weak(t, Self)
    requires s != [] && t != [] && multiset(s) == multiset(t)
    ensures s[0] == t[0]
  {
    assert s[0] in multiset(t) && t[0] in multiset(s);
    var j :| 0 <= j < |t| && t[j] == s[0];
    var i :| 0 <= i < |s| && s[i] == t[0];
    WeakLeast(s, Self, i);
    WeakLeast(t, Self, j);
    LessTotal(s[0], t[0]);
  }

  /** A bag of keys has one ascending spelling. */
  lemma {:induction false} WeakUnique(s: seq<seq<int>>, t: seq<seq<int>>)
    requires Weak(s, Self) && Weak(t, Self)
    requires multiset(s) == multiset(t)
    ensures s == t
  {
    assert |s| == |multiset(s)| == |multiset(t)| == |t|;
    if s != [] {
      SameLeast(s, t);
      WeakTail(s, Self);
      WeakTail(t, Self);
      assert s == [s[0]] + s[1..] && t == [t[0]] + t[1..];
      assert multiset(s[1..]) == multiset(s) - multiset{s[0]};
      assert multiset(t[1..]) == multiset(t) - multiset{t[0]};
      WeakUnique(s[1..], t[1..]);
    }
  }

  lemma RepeatsByKey<T>(s: seq<T>, key: T -> seq<int>)
    ensures Repeats(s, key) <==> Repeats(Map(key, s), Self)
  {
    var m := Map(key, s);
    if i :| 0 < i < |s| && key(s[i - 1]) == key(s[i]) {
      assert Self(m[i - 1]) == Self(m[i]);
    }
    if i :| 0 < i < |m| && Self(m[i - 1]) == Self(m[i]) {
      assert key(s[i - 1]) == key(s[i]);
    }
  }

  /** After a sort, neighbours show every repeat the list holds. */
  lemma SortShowsRepeats<T>(s: seq<T>, key: T -> seq<int>)
    ensures Distinct(s, key) <==> !Repeats(SortBy(s, key), key)
    ensures Distinct(s, key) ==> Strict(SortBy(s, key), key)
  {
    var t := SortBy(s, key);
    SortByWeak(s, key);
    SortByBag(s, key);
    WeakUnrepeatedIsStrict(t, key);
    MapBag(key, s, t);
    DistinctOnce(s, key);
    DistinctOnce(t, key);
    if Strict(t, key) {
      forall i, j | 0 <= i < j < |t| ensures key(t[i]) != key(t[j]) { StrictPair(t, key, i, j); }
    }
  }

  /** Sorting a list that repeats no key gives one result however it was ordered. */
  lemma SortForgetsOrder<T>(s: seq<T>, t: seq<T>, key: T -> seq<int>)
    requires multiset(s) == multiset(t)
    ensures Distinct(s, key) <==> Distinct(t, key)
    ensures Distinct(s, key) ==> SortBy(s, key) == SortBy(t, key)
  {
    MapBag(key, s, t);
    DistinctOnce(s, key);
    DistinctOnce(t, key);
    SortByBag(s, key);
    SortByBag(t, key);
    if Distinct(s, key) {
      SortShowsRepeats(s, key);
      SortShowsRepeats(t, key);
      StrictUnique(SortBy(s, key), SortBy(t, key), key);
    }
  }

  /** A bag with no shared key has one strictly ascending spelling. */
  lemma StrictUnique<T>(s: seq<T>, t: seq<T>, key: T -> seq<int>)
    requires Strict(s, key) && Strict(t, key) && multiset(s) == multiset(t)
    ensures s == t
  {
    StrictIsWeak(s, key);
    StrictIsWeak(t, key);
    MapBag(key, s, t);
    assert Weak(Map(key, s), Self);
    assert Weak(Map(key, t), Self);
    WeakUnique(Map(key, s), Map(key, t));
    assert |s| == |Map(key, s)| == |t|;
    forall i | 0 <= i < |s| ensures s[i] == t[i] {
      assert s[i] in multiset(t);
      var j :| 0 <= j < |t| && t[j] == s[i];
      assert Map(key, s)[i] == Map(key, t)[i];
      if j < i { StrictPair(t, key, j, i); }
      if i < j { StrictPair(t, key, i, j); }
    }
  }

  lemma StrictIsWeak<T>(s: seq<T>, key: T -> seq<int>)
    requires Strict(s, key)
    ensures Weak(s, key)
  {
    forall i | 0 < i < |s| ensures !Less(key(s[i]), key(s[i - 1])) { LessAsymmetric(key(s[i - 1]), key(s[i])); }
  }

  /** Sorting a strictly ascending list leaves it alone. */
  lemma SortStrict<T>(s: seq<T>, key: T -> seq<int>)
    requires Strict(s, key)
    ensures SortBy(s, key) == s
    ensures !Repeats(s, key)
  {
    StrictIsWeak(s, key);
    WeakUnrepeatedIsStrict(s, key);
    SortByWeak(s, key);
    SortedSelf(s, key);
    WeakUnrepeatedIsStrict(SortBy(s, key), key);
    RepeatsByKey(SortBy(s, key), key);
    RepeatsByKey(s, key);
    SortByBag(s, key);
    StrictUnique(SortBy(s, key), s, key);
  }

  lemma SortedSelf<T>(s: seq<T>, key: T -> seq<int>)
    requires Weak(s, key)
    ensures Map(key, SortBy(s, key)) == Map(key, s)
  {
    SortByWeak(s, key);
    SortByBag(s, key);
    MapBag(key, SortBy(s, key), s);
    assert Weak(Map(key, SortBy(s, key)), Self);
    assert Weak(Map(key, s), Self);
    WeakUnique(Map(key, SortBy(s, key)), Map(key, s));
  }

  lemma InsertSplit<T>(p: seq<T>, last: T, x: T, key: T -> seq<int>)
    requires Less(key(x), key(last))
    ensures Insert(p + [last], x, key) == Insert(p, x, key) + [last]
  {
    assert (p + [last])[..|p|] == p;
  }

  lemma InsertStep<T>(s: seq<T>, x: T, key: T -> seq<int>, j: nat)
    requires 0 < j <= |s| && Less(key(x), key(s[j - 1]))
    ensures Insert(s[..j], x, key) + s[j..] == Insert(s[..j - 1], x, key) + s[j - 1..]
  {
    InsertSplit(s[..j - 1], s[j - 1], x, key);
    assert s[..j] == s[..j - 1] + [s[j - 1]];
    assert s[j - 1..] == [s[j - 1]] + s[j..];
  }

  /** Where the moving down stops, the entry has its place. */
  lemma InsertStop<T>(s: seq<T>, x: T, key: T -> seq<int>, j: nat)
    requires j <= |s| && (j > 0 ==> !Less(key(x), key(s[j - 1])))
    ensures Insert(s[..j], x, key) + s[j..] == s[..j] + [x] + s[j..]
  {}

  /** Move `a[i]` down into its place in the sorted run before it. */
  method Sift<T>(a: array<T>, i: nat, key: T -> seq<int>)
    requires i < a.Length
    modifies a
    ensures a[..i + 1] == Insert(old(a[..i]), old(a[i]), key)
    ensures a[i + 1..] == old(a[i + 1..])
  {
    ghost var s := a[..i];
    var x, j := a[i], i;
    assert s[..i] == s && s[i..] == [];
    while j > 0 && Less(key(x), key(a[j - 1]))
      invariant 0 <= j <= i
      invariant forall k :: 0 <= k < j ==> a[k] == s[k]
      invariant forall k :: j < k <= i ==> a[k] == s[k - 1]
      invariant forall k :: i < k < a.Length ==> a[k] == old(a[k])
      invariant Insert(s, x, key) == Insert(s[..j], x, key) + s[j..]
    {
      InsertStep(s, x, key, j);
      a[j] := a[j - 1];
      j := j - 1;
    }
    InsertStop(s, x, key, j);
    a[j] := x;
    SiftedIs(a[..i + 1], s, x, j);
  }

  lemma SiftedIs<T>(t: seq<T>, s: seq<T>, x: T, j: nat)
    requires |t| == |s| + 1 && j <= |s| && t[j] == x
    requires forall k :: 0 <= k < j ==> t[k] == s[k]
    requires forall k :: j < k < |t| ==> t[k] == s[k - 1]
    ensures t == s[..j] + [x] + s[j..]
  {}

  /** Sort an array in place, stably, by `key`. */
  method SortInPlace<T>(a: array<T>, key: T -> seq<int>)
    modifies a
    ensures a[..] == SortBy(old(a[..]), key)
  {
    ghost var was := a[..];
    for i := 0 to a.Length
      invariant a[..i] == SortBy(was[..i], key)
      invariant a[i..] == was[i..]
    {
      assert was[..i + 1][..i] == was[..i];
      assert a[i] == a[i..][0] == was[i];
      assert a[i + 1..] == a[i..][1..] == was[i..][1..] == was[i + 1..];
      Sift(a, i, key);
    }
    assert a[..] == a[..a.Length] && was == was[..a.Length];
  }
}
