/** List and number helpers shared by the other modules. */
module Lists {

  datatype Option<+T> = None | Some(value: T)

  ghost predicate Ascending(s: seq<int>) {
    forall i, j :: 0 <= i < j < |s| ==> s[i] <= s[j]
  }

  ghost predicate Distinct<T>(s: seq<T>) {
    forall i, j :: 0 <= i < j < |s| ==> s[i] != s[j]
  }

  function Lookup<K, V>(m: map<K, V>, k: K): Option<V> {
    if k in m then Some(m[k]) else None
  }

  /** Each member of the set once, in some order. */
  ghost predicate Enumerates<T(!new)>(order: seq<T>, members: set<T>) {
    Distinct(order) && (forall x :: x in order <==> x in members)
  }

  lemma {:induction false} Enumeration<T(!new)>(members: set<T>) returns (order: seq<T>)
    ensures Enumerates(order, members)
  {
    if members == {} {
      order := [];
    } else {
      var x :| x in members;
      order := Enumeration(members - {x});
      order := order + [x];
    }
  }

  function Insert(x: int, s: seq<int>): (r: seq<int>)
    ensures multiset(r) == multiset(s) + multiset{x}
  {
    if s == [] then [x]
    else if x <= s[0] then [x] + s
    else
      assert s == [s[0]] + s[1..];
      [s[0]] + Insert(x, s[1..])
  }

  lemma {:induction false} InsertAscending(x: int, s: seq<int>)
    requires Ascending(s)
    ensures Ascending(Insert(x, s))
  {
    if s != [] && s[0] < x {
      var r := Insert(x, s[1..]);
      InsertAscending(x, s[1..]);
      forall j | 0 <= j < |r| ensures s[0] <= r[j] {
        assert r[j] in multiset(r);
        assert r[j] == x || r[j] in s[1..];
      }
    }
  }

  /** What `sort.Ints` leaves in its argument. */
  function SortInts(s: seq<int>): (r: seq<int>)
    ensures multiset(r) == multiset(s)
  {
    if s == [] then []
    else
      assert s == [s[0]] + s[1..];
      Insert(s[0], SortInts(s[1..]))
  }

  lemma {:induction false} SortIntsAscending(s: seq<int>)
    ensures Ascending(SortInts(s))
  {
    if s != [] {
      SortIntsAscending(s[1..]);
      InsertAscending(s[0], SortInts(s[1..]));
    }
  }

  lemma SameMembers<T>(a: seq<T>, b: seq<T>)
    requires multiset(a) == multiset(b)
    ensures forall x :: x in a <==> x in b
    ensures |a| == |b|
  {
    assert forall x :: x in a <==> x in multiset(a);
    assert forall x :: x in b <==> x in multiset(b);
    assert |a| == |multiset(a)|;
  }

  /** A member of a nonempty set. */
  ghost function Pick<T>(s: set<T>): (x: T)
    requires s != {}
    ensures x in s
  {
    var x :| x in s; x
  }

  lemma Associative<T>(a: seq<T>, b: seq<T>, c: seq<T>)
    ensures a + (b + c) == (a + b) + c
  {
  }

  lemma TailOfAppend<T>(a: seq<T>, b: seq<T>)
    requires a != []
    ensures (a + b)[0] == a[0] && (a + b)[1..] == a[1..] + b
  {
  }

  function Filter<T>(p: T -> bool, s: seq<T>): (r: seq<T>)
  {
    if s == [] then [] else (if p(s[0]) then [s[0]] else []) + Filter(p, s[1..])
  }

  lemma {:induction false} FilterAppend<T>(p: T -> bool, a: seq<T>, b: seq<T>)
    ensures Filter(p, a + b) == Filter(p, a) + Filter(p, b)
  {
    if a == [] {
      assert a + b == b;
    } else {
      var head := if p(a[0]) then [a[0]] else [];
      FilterAppend(p, a[1..], b);
      TailOfAppend(a, b);
      Associative(head, Filter(p, a[1..]), Filter(p, b));
    }
  }

  /** `a` is `b` with some elements left out. */
  ghost predicate Subsequence<T>(a: seq<T>, b: seq<T>) {
    a == [] ||
    (b != [] && ((a[|a| - 1] == b[|b| - 1] && Subsequence(a[..|a| - 1], b[..|b| - 1])) || Subsequence(a, b[..|b| - 1])))
  }

  lemma SubsequenceStep<T>(a: seq<T>, b: seq<T>, x: T)
    requires Subsequence(a, b)
    ensures Subsequence(a, b + [x]) && Subsequence(a + [x], b + [x])
  {
    assert (a + [x])[..|a|] == a && (b + [x])[..|b|] == b;
  }

  lemma FilterSnoc<T>(p: T -> bool, s: seq<T>, x: T)
    ensures Filter(p, s + [x]) == Filter(p, s) + if p(x) then [x] else []
  {
    FilterAppend(p, s, [x]);
    assert [x][1..] == [];
  }

  lemma FilterEnds<T>(p: T -> bool)
    ensures Filter(p, []) == [] && Subsequence<T>([], [])
  {
  }

  /** What a filter leaves: every wanted element as often as before, no other, in order. */
  lemma {:induction false} FilterKeeps<T>(p: T -> bool, s: seq<T>)
    ensures Subsequence(Filter(p, s), s)
    ensures forall x :: multiset(Filter(p, s))[x] == if p(x) then multiset(s)[x] else 0
  {
    hide Filter, Subsequence;
    if s == [] {
      FilterEnds(p);
    } else {
      var front, last := s[..|s| - 1], s[|s| - 1];
      FilterKeeps(p, front);
      FilterSnoc(p, front, last);
      assert s == front + [last] && Filter(p, front) + [] == Filter(p, front);
      SubsequenceStep(Filter(p, front), front, last);
    }
  }

  /** Decimal text of an integer, as `%d` and `strconv.Itoa` write it. */
  function Itoa(n: int): (s: string)
    decreases if n < 0 then 1 - n else n
  {
    if n < 0 then "-" + Itoa(-n)
    else if n < 10 then [Digit(n)]
    else Itoa(n / 10) + [Digit(n % 10)]
  }

  function Digit(d: int): char
    requires 0 <= d < 10
  {
    "0123456789"[d]
  }

  /** No two integers are written alike, and none with an underscore. */
  lemma {:induction false} ItoaPlain(n: int)
    ensures Itoa(n) != "" && '_' !in Itoa(n)
    ensures n >= 0 ==> '-' !in Itoa(n)
    ensures 0 <= n < 10 <==> |Itoa(n)| == 1
    decreases if n < 0 then 1 - n else n
  {
    if n < 0 {
      ItoaPlain(-n);
    } else if n >= 10 {
      ItoaPlain(n / 10);
    }
  }

  lemma DigitInjective(d: int, e: int)
    requires 0 <= d < 10 && 0 <= e < 10 && Digit(d) == Digit(e)
    ensures d == e
  {
  }

  lemma {:induction false} ItoaNatInjective(m: nat, n: nat)
    requires Itoa(m) == Itoa(n)
    ensures m == n
  {
    hide Digit;
    ItoaPlain(m);
    ItoaPlain(n);
    var k := |Itoa(m)| - 1;
    assert Itoa(m)[k] == Digit(m % 10) && Itoa(n)[k] == Digit(n % 10);
    DigitInjective(m % 10, n % 10);
    if m >= 10 {
      assert Itoa(m)[..k] == Itoa(m / 10) && Itoa(n)[..k] == Itoa(n / 10);
      ItoaNatInjective(m / 10, n / 10);
    }
  }

  lemma ItoaInjective(m: int, n: int)
    requires Itoa(m) == Itoa(n)
    ensures m == n
  {
    hide Digit;
    ItoaPlain(m);
    ItoaPlain(n);
    if m >= 0 && n >= 0 {
      ItoaNatInjective(m, n);
    } else {
      assert Itoa(m)[0] == '-' && Itoa(n)[0] == '-';
      assert Itoa(m)[1..] == Itoa(-m) && Itoa(n)[1..] == Itoa(-n);
      ItoaNatInjective(-m, -n);
    }
  }

  /** A separator that does not occur after it, or before it, marks where a text was joined. */
  lemma JoinedOnce(a: string, b: string, a': string, b': string, c: char)
    requires a + [c] + b == a' + [c] + b'
    requires (c !in b && c !in b') || (c !in a && c !in a')
    ensures a == a' && b == b'
  {
    var s := a + [c] + b;
    assert s[|a|] == c && s[|a'|] == c;
    assert forall i :: 0 <= i < |a| ==> s[i] == a[i];
    assert forall i :: 0 <= i < |a'| ==> s[i] == a'[i];
    assert forall i :: |a| < i < |s| ==> s[i] == b[i - |a| - 1];
    assert forall i :: |a'| < i < |s| ==> s[i] == b'[i - |a'| - 1];
    assert a == s[..|a|] == a' && b == s[|a| + 1..] == b';
  }
}
