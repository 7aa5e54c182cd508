/** The reconcile plan of the node agent (reconcile.go). */
module Reconcile {

  datatype Peer = Peer(key: string, ips: seq<string>)

  datatype Plan = Plan(add: seq<Peer>, remove: seq<string>)

  // ----- the order of keys -----

  predicate Less(a: string, b: string) {
    if b == "" then false
    else if a == "" then true
    else a[0] < b[0] || (a[0] == b[0] && Less(a[1..], b[1..]))
  }

  lemma {:induction false} LessIsStrict(a: string, b: string)
    ensures !(Less(a, b) && Less(b, a))
    ensures a == b <==> !Less(a, b) && !Less(b, a)
  {
    if a != "" && b != "" {
      LessIsStrict(a[1..], b[1..]);
      assert a == [a[0]] + a[1..] && b == [b[0]] + b[1..];
    }
  }

  lemma {:induction false} LessIsTransitive(a: string, b: string, c: string)
    requires Less(a, b) && Less(b, c)
    ensures Less(a, c)
  {
    if a != "" {
      if a[0] == b[0] == c[0] {
        LessIsTransitive(a[1..], b[1..], c[1..]);
      }
    }
  }

  predicate Increasing(s: seq<string>) {
    forall i, j :: 0 <= i < j < |s| ==> Less(s[i], s[j])
  }

  function Keys(s: seq<Peer>): (r: seq<string>)
    ensures |r| == |s|
  {
    seq(|s|, i requires 0 <= i < |s| => s[i].key)
  }

  lemma HasHead<T>(s: seq<T>)
    ensures s != [] ==> s[0] in s
  {
  }

  /** Two increasing sequences with the same elements are the same. */
  lemma {:induction false} IncreasingIsUnique(s: seq<string>, t: seq<string>)
    requires Increasing(s) && Increasing(t) && (forall x :: x in s <==> x in t)
    ensures s == t
  {
    HasHead(s);
    HasHead(t);
    if s != [] && t != [] {
      SameHead(s, t);
      forall x
        ensures x in s[1..] <==> x in t[1..]
      {
        TailMember(s, x);
        TailMember(t, x);
      }
      IncreasingIsUnique(s[1..], t[1..]);
    }
  }

  lemma TailMember(s: seq<string>, x: string)
    requires s != [] && Increasing(s)
    ensures x in s[1..] <==> x in s && x != s[0]
  {
    forall i | 1 <= i < |s|
      ensures s[i] != s[0]
    {
      LessIsStrict(s[0], s[i]);
    }
  }

  lemma SameHead(s: seq<string>, t: seq<string>)
    requires s != [] && t != [] && Increasing(s) && Increasing(t) && (forall x :: x in s <==> x in t)
    ensures s[0] == t[0]
  {
    assert s[0] in t && t[0] in s;
    var i :| 0 <= i < |t| && t[i] == s[0];
    var j :| 0 <= j < |s| && s[j] == t[0];
    if i > 0 && j > 0 {
      assert Less(t[0], s[0]) && Less(s[0], t[0]);
      LessIsStrict(s[0], t[0]);
    }
  }

  // ----- index -----

  /** The allowed IPs of the last peer with each key. */
  function Indexed(peers: seq<Peer>): map<string, seq<string>> {
    if peers == [] then map[]
    else Indexed(peers[..|peers| - 1])[peers[|peers| - 1].key := peers[|peers| - 1].ips]
  }

  method Index(peers: seq<Peer>) returns (m: map<string, seq<string>>)
    ensures m == Indexed(peers)
  {
    m := map[];
    for i := 0 to |peers|
      invariant m == Indexed(peers[..i])
    {
      m := m[peers[i].key := peers[i].ips];
      assert peers[..i + 1][..i] == peers[..i];
    }
    assert peers[..|peers|] == peers;
  }

  predicate IsLast(peers: seq<Peer>, i: int) {
    0 <= i < |peers| && forall j :: i < j < |peers| ==> peers[j].key != peers[i].key
  }

  lemma LastOfLonger(peers: seq<Peer>, i: int)
    requires peers != []
    ensures var n := |peers| - 1;
            IsLast(peers, i) <==> i == n || (IsLast(peers[..n], i) && peers[n].key != peers[..n][i].key)
  {
    var n := |peers| - 1;
    var front := peers[..n];
    if IsLast(front, i) && peers[n].key != front[i].key {
      forall j | i < j < |peers|
        ensures peers[j].key != peers[i].key
      {
        assert j < n ==> peers[j] == front[j];
      }
    }
    if IsLast(peers, i) && i != n {
      assert forall j :: i < j < n ==> front[j] == peers[j];
    }
  }

  /** The index holds the last entry of each key. */
  lemma {:induction false} IndexedIsLast(peers: seq<Peer>)
    ensures forall k :: k in Indexed(peers) ==> exists i :: IsLast(peers, i) && peers[i].key == k
    ensures forall i :: IsLast(peers, i) ==> peers[i].key in Indexed(peers) && Indexed(peers)[peers[i].key] == peers[i].ips
  {
    if peers != [] {
      var n := |peers| - 1;
      var front := peers[..n];
      IndexedIsLast(front);
      LastOfLonger(peers, n);
      forall i | IsLast(peers, i)
        ensures peers[i].key in Indexed(peers) && Indexed(peers)[peers[i].key] == peers[i].ips
      {
        LastOfLonger(peers, i);
      }
      forall k | k in Indexed(peers)
        ensures exists i :: IsLast(peers, i) && peers[i].key == k
      {
        if k != peers[n].key {
          var i :| IsLast(front, i) && front[i].key == k;
          LastOfLonger(peers, i);
        }
      }
    }
  }

  /** With distinct keys the index is the list itself. */
  lemma {:induction false} IndexedDistinct(peers: seq<Peer>)
    requires forall i, j :: 0 <= i < j < |peers| ==> peers[i].key != peers[j].key
    ensures forall k :: k in Indexed(peers) <==> exists i :: 0 <= i < |peers| && peers[i].key == k
    ensures forall i :: 0 <= i < |peers| ==> peers[i].key in Indexed(peers) && Indexed(peers)[peers[i].key] == peers[i].ips
  {
    if peers != [] {
      var front := peers[..|peers| - 1];
      IndexedDistinct(front);
      forall k
        ensures k in Indexed(peers) <==> exists i :: 0 <= i < |peers| && peers[i].key == k
      {
        if k in Indexed(front) {
          var i :| 0 <= i < |front| && front[i].key == k;
          assert peers[i].key == k;
        }
        if i :| 0 <= i < |peers| && peers[i].key == k {
          assert i < |front| ==> front[i].key == k;
        }
      }
    }
  }

  // ----- sameSet -----

  function Count(seen: map<string, int>, x: string): int {
    if x in seen then seen[x] else 0
  }

  /** `sameSet`: equal with multiplicities, in whatever order. */
  method SameSet(a: seq<string>, b: seq<string>) returns (same: bool)
    ensures same <==> multiset(a) == multiset(b)
  {
    if |a| != |b| {
      assert |multiset(a)| == |a| && |multiset(b)| == |b|;
      return false;
    }
    var seen: map<string, int> := map[];
    for i := 0 to |a|
      invariant forall x :: Count(seen, x) == multiset(a[..i])[x]
    {
      seen := seen[a[i] := Count(seen, a[i]) + 1];
      assert a[..i + 1] == a[..i] + [a[i]];
    }
    assert a[..|a|] == a;
    for i := 0 to |b|
      invariant LeftOver(seen, a, b[..i])
    {
      if Count(seen, b[i]) == 0 {
        TooMany(seen, a, b, i);
        return false;
      }
      TakeOne(seen, a, b, i);
      seen := seen[b[i] := Count(seen, b[i]) - 1];
    }
    assert b[..|b|] == b;
    SameSizeSubset(multiset(b), multiset(a));
    return true;
  }

  /** The counts are those of a less those of the part of b seen so far. */
  ghost predicate LeftOver(seen: map<string, int>, a: seq<string>, b: seq<string>) {
    forall x :: 0 <= Count(seen, x) && Count(seen, x) + multiset(b)[x] == multiset(a)[x]
  }

  lemma TakeOne(seen: map<string, int>, a: seq<string>, b: seq<string>, i: nat)
    requires i < |b| && LeftOver(seen, a, b[..i]) && Count(seen, b[i]) != 0
    ensures LeftOver(seen[b[i] := Count(seen, b[i]) - 1], a, b[..i + 1])
  {
    assert b[..i + 1] == b[..i] + [b[i]];
    var seen' := seen[b[i] := Count(seen, b[i]) - 1];
    forall x
      ensures 0 <= Count(seen', x) && Count(seen', x) + multiset(b[..i + 1])[x] == multiset(a)[x]
    {
      assert multiset(b[..i + 1])[x] == multiset(b[..i])[x] + (if x == b[i] then 1 else 0);
    }
  }

  lemma TooMany(seen: map<string, int>, a: seq<string>, b: seq<string>, i: nat)
    requires i < |b| && LeftOver(seen, a, b[..i]) && Count(seen, b[i]) == 0
    ensures multiset(a) != multiset(b)
  {
    assert b == b[..i] + [b[i]] + b[i + 1..];
    assert multiset(b)[b[i]] > multiset(a)[b[i]];
  }

  lemma SameSizeSubset(x: multiset<string>, y: multiset<string>)
    requires |x| == |y| && forall e :: x[e] <= y[e]
    ensures x == y
  {
    assert y == x + (y - x);
  }

  // ----- sorting -----

  function InsertKey(s: seq<string>, k: string): seq<string> {
    if s == [] || Less(k, s[0]) then [k] + s else [s[0]] + InsertKey(s[1..], k)
  }

  lemma {:induction false} InsertKeepsOrder(s: seq<string>, k: string)
    requires Increasing(s) && k !in s
    ensures Increasing(InsertKey(s, k))
    ensures forall x :: x in InsertKey(s, k) <==> x in s || x == k
  {
    if s == [] {
    } else if Less(k, s[0]) {
      forall i | 0 < i < |s|
        ensures Less(k, s[i])
      {
        LessIsTransitive(k, s[0], s[i]);
      }
    } else {
      LessIsStrict(s[0], k);
      var rest := InsertKey(s[1..], k);
      InsertKeepsOrder(s[1..], k);
      forall x | x in rest
        ensures Less(s[0], x)
      {
        if x != k {
          var i :| 0 <= i < |s[1..]| && s[1..][i] == x;
          assert s[i + 1] == x;
        }
      }
      assert s == [s[0]] + s[1..];
    }
  }

  /** `sort.Strings` on distinct strings. */
  method SortStrings(s: seq<string>) returns (r: seq<string>)
    requires forall i, j :: 0 <= i < j < |s| ==> s[i] != s[j]
    ensures Increasing(r) && forall x :: x in r <==> x in s
  {
    r := [];
    for i := 0 to |s|
      invariant Increasing(r) && forall x :: x in r <==> x in s[..i]
    {
      assert s[i] !in s[..i];
      InsertKeepsOrder(r, s[i]);
      r := InsertKey(r, s[i]);
      assert s[..i + 1] == s[..i] + [s[i]];
    }
    assert s[..|s|] == s;
  }

  // ----- Diff -----

  predicate Changed(cur: map<string, seq<string>>, des: map<string, seq<string>>, k: string) {
    k in des && (k !in cur || multiset(cur[k]) != multiset(des[k]))
  }

  /** The plan adds exactly the new and the changed peers with what is desired of them,
      removes exactly the undesired ones, and both lists are in increasing key order. */
  ghost predicate IsPlan(cur: map<string, seq<string>>, des: map<string, seq<string>>, plan: Plan) {
    && Increasing(Keys(plan.add)) && Increasing(plan.remove)
    && (forall k :: k in Keys(plan.add) <==> Changed(cur, des, k))
    && (forall i :: 0 <= i < |plan.add| ==> plan.add[i].key in des && plan.add[i].ips == des[plan.add[i].key])
    && (forall k :: k in plan.remove <==> k in cur && k !in des)
  }

  /** The iteration order of the maps does not show: there is one plan. */
  lemma PlanIsUnique(cur: map<string, seq<string>>, des: map<string, seq<string>>, p: Plan, q: Plan)
    requires IsPlan(cur, des, p) && IsPlan(cur, des, q)
    ensures p == q
  {
    IncreasingIsUnique(p.remove, q.remove);
    IncreasingIsUnique(Keys(p.add), Keys(q.add));
    forall i | 0 <= i < |p.add|
      ensures p.add[i] == q.add[i]
    {
      assert Keys(p.add)[i] == Keys(q.add)[i];
    }
  }

  method Diff(current: seq<Peer>, desired: seq<Peer>) returns (plan: Plan)
    ensures IsPlan(Indexed(current), Indexed(desired), plan)
  {
    var cur := Index(current);
    var des := Index(desired);
    var add := ChangedKeys(cur, des);
    var remove := [];
    var rest := cur.Keys;
    while rest != {}
      invariant rest <= cur.Keys
      invariant forall k :: k in remove <==> k in cur.Keys - rest && k !in des
      invariant forall i, j :: 0 <= i < j < |remove| ==> remove[i] != remove[j]
      decreases rest
    {
      var k :| k in rest;
      assert k !in remove;
      rest := rest - {k};
      if k !in des {
        remove := remove + [k];
      }
    }
    add := SortStrings(add);
    assert forall i :: 0 <= i < |add| ==> Changed(cur, des, add[i]);
    remove := SortStrings(remove);
    plan := Plan(seq(|add|, i requires 0 <= i < |add| && add[i] in des => Peer(add[i], des[add[i]])), remove);
    assert Keys(plan.add) == add;
  }

  /** The first loop of `Diff`. */
  method ChangedKeys(cur: map<string, seq<string>>, des: map<string, seq<string>>) returns (add: seq<string>)
    ensures forall k :: k in add <==> Changed(cur, des, k)
    ensures forall i, j :: 0 <= i < j < |add| ==> add[i] != add[j]
  {
    add := [];
    var rest := des.Keys;
    while rest != {}
      invariant rest <= des.Keys
      invariant forall k :: k in add <==> k in des.Keys - rest && Changed(cur, des, k)
      invariant forall i, j :: 0 <= i < j < |add| ==> add[i] != add[j]
      decreases rest
    {
      var k :| k in rest;
      assert k !in add;
      rest := rest - {k};
      var same := false;
      if k in cur {
        same := SameSet(cur[k], des[k]);
      }
      if !same {
        add := add + [k];
      }
    }
  }
}
