// The lines of two active files as actsync holds them, and the orders it sorts
// them by (backends/actsync.c).
module ActiveFile {

  const NOHOST := 0
  const HOSTID1 := 1
  const HOSTID2 := 2

  // Why a line is ignored. The first four are no errors.
  datatype Reason =
    | CheckIgnore | CheckType | CheckBork | CheckHier
    | LongLoop | EqLoop | NonEq | Dup | EqName | BadType | BadName | BadFormat

  predicate IsError(ignore: set<Reason>) {
    exists r :: r in ignore && r !in {CheckIgnore, CheckType, CheckBork, CheckHier}
  }

  datatype Group = Group(
    ignore: set<Reason>, hostid: int, linenum: int, output: bool, remove: bool,
    name: string, hi: string, low: string, kind: string,
    outHi: string, outLow: string, outKind: string)
  {
    // Its type says that it stands for another group.
    predicate IsAlias() { kind != "" && kind[0] == '=' }

    // The name of that other group.
    function Target(): string
      requires IsAlias()
    {
      kind[1..]
    }

    function Marked(reason: Reason): Group { this.(ignore := ignore + {reason}) }
  }

  // The sign of strcmp.
  function Strcmp(a: string, b: string): int {
    if a == "" then if b == "" then 0 else -1
    else if b == "" || a[0] > b[0] then 1
    else if a[0] < b[0] then -1
    else Strcmp(a[1..], b[1..])
  }

  lemma {:induction false} StrcmpZero(a: string, b: string)
    ensures Strcmp(a, b) == 0 <==> a == b
    ensures Strcmp(a, b) == -Strcmp(b, a)
  {
    if a != "" && b != "" && a[0] == b[0] {
      StrcmpZero(a[1..], b[1..]);
      assert a == [a[0]] + a[1..] && b == [b[0]] + b[1..];
    }
  }

  lemma {:induction false} StrcmpTrans(a: string, b: string, c: string)
    requires Strcmp(a, b) <= 0 && Strcmp(b, c) <= 0
    ensures Strcmp(a, c) <= 0
    ensures Strcmp(a, c) == 0 ==> Strcmp(a, b) == 0 && Strcmp(b, c) == 0
  {
    if a != "" && b != "" && c != "" && a[0] == b[0] == c[0] {
      StrcmpTrans(a[1..], b[1..], c[1..]);
    }
  }

  // What the two sort orders look at, first things first. A line of an active file
  // has no use for the first two.
  datatype Key = Key(skip: bool, eq: string, name: string, hostid: int, linenum: int)

  function Sign(x: int, y: int): int {
    if x < y then -1 else if x > y then 1 else 0
  }

  function CompareKeys(a: Key, b: Key): int {
    if a.skip != b.skip then if a.skip then 1 else -1
    else if Strcmp(a.eq, b.eq) != 0 then Strcmp(a.eq, b.eq)
    else if Strcmp(a.name, b.name) != 0 then Strcmp(a.name, b.name)
    else if a.hostid != b.hostid then Sign(a.hostid, b.hostid)
    else Sign(a.linenum, b.linenum)
  }

  lemma KeysTotal(a: Key, b: Key)
    ensures CompareKeys(a, b) == -CompareKeys(b, a)
  {
    StrcmpZero(a.eq, b.eq);
    StrcmpZero(a.name, b.name);
  }

  lemma KeysTrans(a: Key, b: Key, c: Key)
    requires CompareKeys(a, b) <= 0 && CompareKeys(b, c) <= 0
    ensures CompareKeys(a, c) <= 0
  {
    if a.skip == b.skip == c.skip {
      StrcmpTrans(a.eq, b.eq, c.eq);
      if Strcmp(a.eq, c.eq) == 0 {
        StrcmpTrans(a.name, b.name, c.name);
      }
    }
  }

  ghost predicate Ordered<T>(key: T --> Key, s: seq<T>)
    requires forall x :: x in s ==> key.requires(x)
  {
    forall i, j :: 0 <= i < j < |s| ==> CompareKeys(key(s[i]), key(s[j])) <= 0
  }

  // qsort is a library call: any method of sorting will do, here by insertion.
  function Place<T>(key: T --> Key, x: T, s: seq<T>): (k: nat)
    requires key.requires(x) && forall y :: y in s ==> key.requires(y)
    ensures k <= |s|
    ensures k < |s| ==> CompareKeys(key(x), key(s[k])) <= 0
    ensures forall i :: 0 <= i < k ==> CompareKeys(key(x), key(s[i])) > 0
  {
    if s == [] || CompareKeys(key(x), key(s[0])) <= 0 then 0 else Place(key, x, s[1..]) + 1
  }

  function Insert<T(!new)>(x: T, s: seq<T>, k: nat): (r: seq<T>)
    requires k <= |s|
    ensures multiset(r) == multiset([x] + s)
    ensures |r| == |s| + 1
    ensures forall y :: y in r <==> y == x || y in s
  {
    var r := s[..k] + [x] + s[k..];
    assert s == s[..k] + s[k..];
    r
  }

  function Sort<T(!new)>(key: T --> Key, s: seq<T>): (r: seq<T>)
    requires forall x :: x in s ==> key.requires(x)
    ensures multiset(r) == multiset(s) && |r| == |s|
    ensures forall x :: x in r <==> x in s
  {
    if s == [] then [] else
      var rest := Sort(key, s[1..]);
      assert s == [s[0]] + s[1..];
      assert multiset([s[0]] + rest) == multiset([s[0]] + s[1..]);
      var r := Insert(s[0], rest, Place(key, s[0], rest));
      assert forall x :: x in r <==> x in multiset(r);
      r
  }

  lemma {:induction false} SortOrders<T(!new)>(key: T --> Key, s: seq<T>)
    requires forall x :: x in s ==> key.requires(x)
    ensures Ordered(key, Sort(key, s))
  {
    if s != [] {
      var rest := Sort(key, s[1..]);
      SortOrders(key, s[1..]);
      InsertOrders(key, s[0], rest, Place(key, s[0], rest));
    }
  }

  lemma InsertOrders<T(!new)>(key: T --> Key, x: T, s: seq<T>, k: nat)
    requires key.requires(x) && forall y :: y in s ==> key.requires(y)
    requires Ordered(key, s) && k == Place(key, x, s)
    ensures Ordered(key, Insert(x, s, k))
  {
    hide CompareKeys;
    var r := Insert(x, s, k);
    forall i, j | 0 <= i < j < |r|
      ensures CompareKeys(key(r[i]), key(r[j])) <= 0
    {
      if j == k {
        KeysTotal(key(x), key(s[i]));
      } else if i == k && j > k + 1 {
        KeysTrans(key(x), key(s[k]), key(s[j - 1]));
      }
    }
  }

  lemma PlaceFirst<T(!new)>(key: T --> Key, x: T, s: seq<T>)
    requires key.requires(x) && forall y :: y in s ==> key.requires(y)
    requires s != [] ==> CompareKeys(key(x), key(s[0])) <= 0
    ensures Insert(x, s, Place(key, x, s)) == [x] + s
  {
    hide CompareKeys;
  }

  // Sorting what is in order already changes nothing.
  lemma {:induction false} SortKeeps<T(!new)>(key: T --> Key, s: seq<T>)
    requires forall x :: x in s ==> key.requires(x)
    requires Ordered(key, s)
    ensures Sort(key, s) == s
  {
    hide Insert, Place, CompareKeys;
    if s != [] {
      SortKeeps(key, s[1..]);
      PlaceFirst(key, s[0], s[1..]);
      assert s == [s[0]] + s[1..];
    }
  }
}
