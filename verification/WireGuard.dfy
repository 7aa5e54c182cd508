/** Applying a plan to a live interface (wg.go) and the synchronisation of the agent. The
    interface maps a peer's key to its allowed IPs; an allowed IP has one owner, so giving it
    to a peer takes it from any other (section 2 of the WireGuard whitepaper). */
module WireGuard {
  import opened Reconcile

  type Interface = map<string, set<string>>

  function AsSet(ips: seq<string>): set<string> {
    set x | x in ips
  }

  predicate NoRepeats(ips: seq<string>) {
    forall i, j :: 0 <= i < j < |ips| ==> ips[i] != ips[j]
  }

  ghost predicate OneOwner(iface: Interface) {
    forall k, l :: k in iface && l in iface && k != l ==> iface[k] !! iface[l]
  }

  datatype Command = SetPeer(peer: Peer) | RemovePeer(key: string)

  function Run(iface: Interface, c: Command): Interface {
    match c
    case SetPeer(p) =>
      map k | k in iface.Keys + {p.key} ::
        if k == p.key then AsSet(p.ips) else iface[k] - AsSet(p.ips)
    case RemovePeer(key) => iface - {key}
  }

  function RunAll(iface: Interface, cs: seq<Command>): Interface {
    if cs == [] then iface else Run(RunAll(iface, cs[..|cs| - 1]), cs[|cs| - 1])
  }

  /** The commands of `Apply`: updates first, then removals. */
  function Commands(plan: Plan): (cs: seq<Command>)
    ensures |cs| == |plan.add| + |plan.remove|
  {
    seq(|plan.add|, i requires 0 <= i < |plan.add| => SetPeer(plan.add[i])) +
    seq(|plan.remove|, i requires 0 <= i < |plan.remove| => RemovePeer(plan.remove[i]))
  }

  /** `wg show dump` lists every peer once, with its allowed IPs each once, in any order. */
  ghost predicate Lists(peers: seq<Peer>, iface: Interface) {
    && (forall i, j :: 0 <= i < j < |peers| ==> peers[i].key != peers[j].key)
    && (forall k :: k in iface <==> exists i :: 0 <= i < |peers| && peers[i].key == k)
    && (forall i :: 0 <= i < |peers| ==>
        NoRepeats(peers[i].ips) && peers[i].key in iface && AsSet(peers[i].ips) == iface[peers[i].key])
  }

  ghost predicate DisjointIps(des: map<string, seq<string>>) {
    forall k, l :: k in des && l in des && k != l ==> AsSet(des[k]) !! AsSet(des[l])
  }

  function Target(des: map<string, seq<string>>): Interface {
    map k | k in des :: AsSet(des[k])
  }

  predicate AlreadyRight(iface: Interface, des: map<string, seq<string>>, k: string) {
    k in des && k in iface && iface[k] == AsSet(des[k]) && NoRepeats(des[k])
  }

  // ----- the interface as the plan sees it -----

  lemma {:induction false} NoRepeatsMultiset(ips: seq<string>)
    requires NoRepeats(ips)
    ensures multiset(ips) == multiset(AsSet(ips))
  {
    if ips == [] {
    } else {
      var front, last := ips[..|ips| - 1], ips[|ips| - 1];
      assert ips == front + [last];
      NoRepeatsMultiset(front);
      assert AsSet(ips) == AsSet(front) + {last} && last !in AsSet(front);
    }
  }

  lemma SameMultisetSameSet(a: seq<string>, b: seq<string>)
    requires multiset(a) == multiset(b)
    ensures AsSet(a) == AsSet(b)
  {
    forall x
      ensures x in AsSet(a) <==> x in AsSet(b)
    {
      assert x in a <==> x in multiset(a);
      assert x in b <==> x in multiset(b);
    }
  }

  /** A peer is not in the plan only if the interface already has what is desired of it; for
      repetition-free lists that is all it takes. */
  lemma UnchangedIsRight(current: seq<Peer>, iface: Interface, des: map<string, seq<string>>, k: string)
    requires Lists(current, iface) && k in des
    ensures !Changed(Indexed(current), des, k) ==> k in iface && iface[k] == AsSet(des[k]) && NoRepeats(des[k])
    ensures k in iface && iface[k] == AsSet(des[k]) && NoRepeats(des[k]) ==> !Changed(Indexed(current), des, k)
    ensures k in Indexed(current) <==> k in iface
  {
    IndexedDistinct(current);
    if k in iface {
      var i :| 0 <= i < |current| && current[i].key == k;
      NoRepeatsMultiset(current[i].ips);
      if multiset(current[i].ips) == multiset(des[k]) {
        SameMultisetSameSet(current[i].ips, des[k]);
        MultisetNoRepeats(des[k], iface[k]);
      }
      if NoRepeats(des[k]) {
        NoRepeatsMultiset(des[k]);
      }
    }
  }

  lemma MultisetNoRepeats(ips: seq<string>, s: set<string>)
    requires multiset(ips) == multiset(s)
    ensures NoRepeats(ips)
  {
    forall i, j | 0 <= i < j < |ips|
      ensures ips[i] != ips[j]
    {
      if ips[i] == ips[j] {
        TwiceInMultiset(ips, i, j);
        OnceInMultiset(s, ips[i]);
      }
    }
  }

  lemma TwiceInMultiset(ips: seq<string>, i: nat, j: nat)
    requires i < j < |ips| && ips[i] == ips[j]
    ensures multiset(ips)[ips[i]] >= 2
  {
    assert ips == ips[..i] + [ips[i]] + ips[i + 1..j] + [ips[j]] + ips[j + 1..];
  }

  lemma OnceInMultiset(s: set<string>, ip: string)
    ensures multiset(s)[ip] <= 1
  {
  }

  // ----- convergence -----

  lemma {:induction false} RunAllKeepsOneOwner(iface: Interface, cs: seq<Command>)
    requires OneOwner(iface)
    ensures OneOwner(RunAll(iface, cs))
  {
    if cs != [] {
      RunAllKeepsOneOwner(iface, cs[..|cs| - 1]);
    }
  }

  // the peers whose update is among the first n commands
  function Updated(plan: Plan, n: nat): set<string> {
    set i | 0 <= i < n && i < |plan.add| :: plan.add[i].key
  }

  function Removed(plan: Plan, n: nat): set<string> {
    set i | 0 <= i < n - |plan.add| && i < |plan.remove| :: plan.remove[i]
  }

  /** After n of the plan's commands: a desired peer that was right at the start or has been
      updated is as desired, and the keys are what the commands so far make them. */
  ghost predicate AsPlanned(cur: map<string, seq<string>>, iface: Interface, des: map<string, seq<string>>,
      plan: Plan, n: nat, now: Interface)
  {
    && (forall k :: k in des && (!Changed(cur, des, k) || k in Updated(plan, n)) ==>
        k in now && now[k] == AsSet(des[k]))
    && now.Keys == iface.Keys + Updated(plan, n) - Removed(plan, n)
  }

  lemma UpdateStep(cur: map<string, seq<string>>, iface: Interface, des: map<string, seq<string>>,
      plan: Plan, n: nat, was: Interface)
    requires IsPlan(cur, des, plan) && DisjointIps(des) && n < |plan.add|
    requires AsPlanned(cur, iface, des, plan, n, was)
    ensures AsPlanned(cur, iface, des, plan, n + 1, Run(was, SetPeer(plan.add[n])))
  {
    var p := plan.add[n];
    hide AsSet, Changed, Keys, Increasing;
    assert Updated(plan, n + 1) == Updated(plan, n) + {p.key};
    assert Removed(plan, n) == {} && Removed(plan, n + 1) == {};
    assert p.key in des && p.ips == des[p.key];
    hide IsPlan, Updated, Removed, DisjointIps, Run;
    forall k | k in des && (!Changed(cur, des, k) || k in Updated(plan, n + 1))
      ensures var now := Run(was, SetPeer(p)); k in now && now[k] == AsSet(des[k])
    {
      SetPeerKeeps(des, was, p, k);
    }
    SetPeerKeys(was, p);
  }

  /** Setting a desired peer takes nothing from the other desired ones. */
  lemma SetPeerKeeps(des: map<string, seq<string>>, was: Interface, p: Peer, k: string)
    requires DisjointIps(des) && p.key in des && p.ips == des[p.key]
    requires k in des && (k != p.key ==> k in was && was[k] == AsSet(des[k]))
    ensures var now := Run(was, SetPeer(p)); k in now && now[k] == AsSet(des[k])
  {
    hide AsSet;
    if k != p.key {
      assert AsSet(des[k]) !! AsSet(p.ips);
      assert AsSet(des[k]) - AsSet(p.ips) == AsSet(des[k]);
    }
  }

  lemma SetPeerKeys(was: Interface, p: Peer)
    ensures Run(was, SetPeer(p)).Keys == was.Keys + {p.key}
  {
  }

  lemma RemovalStep(cur: map<string, seq<string>>, iface: Interface, des: map<string, seq<string>>,
      plan: Plan, n: nat, was: Interface)
    requires IsPlan(cur, des, plan) && |plan.add| <= n < |plan.add| + |plan.remove|
    requires AsPlanned(cur, iface, des, plan, n, was)
    ensures AsPlanned(cur, iface, des, plan, n + 1, Run(was, RemovePeer(plan.remove[n - |plan.add|])))
  {
    var gone := plan.remove[n - |plan.add|];
    assert gone in plan.remove;
    assert Updated(plan, n + 1) == Updated(plan, n);
    assert Removed(plan, n + 1) == Removed(plan, n) + {gone};
  }

  lemma {:induction false} Progress(current: seq<Peer>, iface: Interface, des: map<string, seq<string>>, plan: Plan, n: nat)
    requires Lists(current, iface) && DisjointIps(des)
    requires IsPlan(Indexed(current), des, plan) && n <= |Commands(plan)|
    ensures AsPlanned(Indexed(current), iface, des, plan, n, RunAll(iface, Commands(plan)[..n]))
    decreases n
  {
    hide IsPlan, DisjointIps, Lists, AsSet, Run;
    if n == 0 {
      forall k | k in des && !Changed(Indexed(current), des, k)
        ensures k in iface && iface[k] == AsSet(des[k])
      {
        UnchangedIsRight(current, iface, des, k);
      }
    } else {
      Progress(current, iface, des, plan, n - 1);
      var cs := Commands(plan);
      assert cs[..n][..n - 1] == cs[..n - 1];
      var was := RunAll(iface, cs[..n - 1]);
      if n <= |plan.add| {
        UpdateStep(Indexed(current), iface, des, plan, n - 1, was);
      } else {
        RemovalStep(Indexed(current), iface, des, plan, n - 1, was);
      }
    }
  }

  /** From any interface, applying the plan ends with exactly the desired peers. */
  lemma Converges(current: seq<Peer>, iface: Interface, des: map<string, seq<string>>, plan: Plan)
    requires Lists(current, iface) && DisjointIps(des)
    requires IsPlan(Indexed(current), des, plan)
    ensures RunAll(iface, Commands(plan)) == Target(des)
  {
    var cs := Commands(plan);
    assert cs[..|cs|] == cs;
    Progress(current, iface, des, plan, |cs|);
    var now := RunAll(iface, cs);
    forall k
      ensures k in now <==> k in des
      ensures k in des ==> now[k] == AsSet(des[k])
    {
      KeyAtEnd(current, iface, des, plan, k);
    }
  }

  lemma AllCommands(plan: Plan, k: string)
    ensures k in Updated(plan, |Commands(plan)|) <==> k in Keys(plan.add)
    ensures k in Removed(plan, |Commands(plan)|) <==> k in plan.remove
  {
    if k in Keys(plan.add) {
      var i :| 0 <= i < |plan.add| && Keys(plan.add)[i] == k;
      assert plan.add[i].key == k;
    }
    if k in Updated(plan, |Commands(plan)|) {
      var i :| 0 <= i < |plan.add| && plan.add[i].key == k;
      assert Keys(plan.add)[i] == k;
    }
    if k in plan.remove {
      var i :| 0 <= i < |plan.remove| && plan.remove[i] == k;
      assert 0 <= i < |Commands(plan)| - |plan.add|;
    }
  }

  lemma KeyAtEnd(current: seq<Peer>, iface: Interface, des: map<string, seq<string>>, plan: Plan, k: string)
    requires Lists(current, iface) && IsPlan(Indexed(current), des, plan)
    ensures k in Updated(plan, |Commands(plan)|) <==> Changed(Indexed(current), des, k)
    ensures k in Removed(plan, |Commands(plan)|) <==> k in iface && k !in des
    ensures k in Indexed(current) <==> k in iface
  {
    AllCommands(plan, k);
    IndexedDistinct(current);
  }

  /** A desired peer that the interface already has right keeps its allowed IPs after every
      single command, for all that other peers' updates may take. */
  lemma RightPeersUndisturbed(current: seq<Peer>, iface: Interface, des: map<string, seq<string>>, plan: Plan,
      n: nat, k: string)
    requires Lists(current, iface) && DisjointIps(des)
    requires IsPlan(Indexed(current), des, plan) && n <= |Commands(plan)|
    requires AlreadyRight(iface, des, k)
    ensures AlreadyRight(RunAll(iface, Commands(plan)[..n]), des, k)
  {
    UnchangedIsRight(current, iface, des, k);
    Progress(current, iface, des, plan, n);
  }

  /** On an interface that is as desired the plan is empty exactly when no desired list
      repeats an address; a peer whose list does is set again every time. */
  lemma SettledPlan(current: seq<Peer>, iface: Interface, des: map<string, seq<string>>, plan: Plan)
    requires Lists(current, iface) && iface == Target(des) && IsPlan(Indexed(current), des, plan)
    ensures plan == Plan([], []) <==> forall k :: k in des ==> NoRepeats(des[k])
  {
    forall k
      ensures k in des ==> (k in Keys(plan.add) <==> !NoRepeats(des[k]))
      ensures k !in plan.remove
    {
      KeyAtEnd(current, iface, des, plan, k);
      if k in des {
        UnchangedIsRight(current, iface, des, k);
      }
    }
    HasHead(plan.remove);
    HasHead(Keys(plan.add));
  }

  // ----- the runner -----

  lemma NextCommand(iface: Interface, plan: Plan, n: nat)
    requires n < |Commands(plan)|
    ensures RunAll(iface, Commands(plan)[..n + 1]) ==
      Run(RunAll(iface, Commands(plan)[..n]),
          if n < |plan.add| then SetPeer(plan.add[n]) else RemovePeer(plan.remove[n - |plan.add|]))
  {
    assert Commands(plan)[..n + 1][..n] == Commands(plan)[..n];
  }

  ghost predicate ReachedBy(start: Interface, plan: Plan, n: nat, now: Interface) {
    n <= |Commands(plan)| && now == RunAll(start, Commands(plan)[..n])
  }

  lemma ReachedNext(start: Interface, plan: Plan, n: nat, now: Interface)
    requires n < |plan.add| + |plan.remove| && ReachedBy(start, plan, n, now)
    ensures ReachedBy(start, plan, n + 1,
              Run(now, if n < |plan.add| then SetPeer(plan.add[n]) else RemovePeer(plan.remove[n - |plan.add|])))
  {
    NextCommand(start, plan, n);
    hide RunAll, Run;
  }

  lemma ReachedIs(start: Interface, plan: Plan, n: nat, now: Interface)
    requires ReachedBy(start, plan, n, now)
    ensures n <= |Commands(plan)| && now == RunAll(start, Commands(plan)[..n])
  {
  }

  lemma ReachedEnds(start: Interface, plan: Plan, now: Interface)
    ensures ReachedBy(start, plan, 0, start) && |Commands(plan)| == |plan.add| + |plan.remove|
    ensures ReachedBy(start, plan, |plan.add| + |plan.remove|, now) ==> now == RunAll(start, Commands(plan))
  {
    var cs := Commands(plan);
    assert cs[..0] == [] && cs[..|cs|] == cs;
  }

  class Runner {
    var iface: Interface

    method SetPeer(p: Peer, fails: bool) returns (ok: bool)
      modifies this
      ensures ok == !fails
      ensures iface == if ok then Run(old(iface), Command.SetPeer(p)) else old(iface)
    {
      if !fails {
        var ips := AsSet(p.ips);
        iface := map k | k in iface.Keys + {p.key} :: if k == p.key then ips else iface[k] - ips;
      }
      ok := !fails;
    }

    method RemovePeer(key: string, fails: bool) returns (ok: bool)
      modifies this
      ensures ok == !fails
      ensures iface == if ok then Run(old(iface), Command.RemovePeer(key)) else old(iface)
    {
      if !fails {
        iface := iface - {key};
      }
      ok := !fails;
    }

    /** `Apply`, with the command number that fails; a number beyond the plan fails none. */
    method Apply(plan: Plan, failsAt: nat) returns (ok: bool)
      modifies this
      ensures ok <==> failsAt >= |Commands(plan)|
      ensures iface == RunAll(old(iface), if ok then Commands(plan) else Commands(plan)[..failsAt])
    {
      ghost var start := iface;
      hide RunAll, Run, Commands, AsSet, ReachedBy;
      ReachedEnds(start, plan, start);
      for i := 0 to |plan.add|
        invariant i <= failsAt && ReachedBy(start, plan, i, iface)
      {
        ReachedNext(start, plan, i, iface);
        ok := SetPeer(plan.add[i], failsAt == i);
        if !ok {
          ReachedIs(start, plan, failsAt, iface);
          return;
        }
      }
      for i := 0 to |plan.remove|
        invariant |plan.add| + i <= failsAt && ReachedBy(start, plan, |plan.add| + i, iface)
      {
        ReachedNext(start, plan, |plan.add| + i, iface);
        ok := RemovePeer(plan.remove[i], failsAt == |plan.add| + i);
        if !ok {
          ReachedIs(start, plan, failsAt, iface);
          return;
        }
      }
      ReachedEnds(start, plan, iface);
      ok := true;
    }

    /** One synchronisation. Whatever an earlier one that failed left behind, a successful
        one ends with exactly the desired peers. */
    method Sync(current: seq<Peer>, desired: seq<Peer>, failsAt: nat) returns (ok: bool)
      requires Lists(current, iface) && OneOwner(iface) && DisjointIps(Indexed(desired))
      modifies this
      ensures OneOwner(iface)
      ensures ok ==> iface == Target(Indexed(desired))
      ensures forall k :: AlreadyRight(old(iface), Indexed(desired), k) ==> AlreadyRight(iface, Indexed(desired), k)
    {
      var plan := Diff(current, desired);
      ghost var start, des := iface, Indexed(desired);
      ok := Apply(plan, failsAt);
      ghost var n := if ok then |Commands(plan)| else failsAt;
      assert iface == RunAll(start, Commands(plan)[..n]) by {
        assert Commands(plan)[..|Commands(plan)|] == Commands(plan);
      }
      RunAllKeepsOneOwner(start, Commands(plan)[..n]);
      Converges(current, start, des, plan);
      forall k | AlreadyRight(start, des, k)
        ensures AlreadyRight(iface, des, k)
      {
        RightPeersUndisturbed(current, start, des, plan, n, k);
      }
    }
  }
}
