/** Which transaction traces are published: a scan over the actions of a trace, cut short by the
    first action that decides, against what it amounts to. */
module TraceFilter {

  type Name = nat

  /** An action as it executed: an unknown variant of the record cannot be handled. */
  datatype Action = Action(variant: nat, account: Name, name: Name, receiver: Name, actors: seq<Name>)

  datatype Filter = Filter(
    useBlacklist: bool, blacklist: map<Name, set<Name>>,
    useReceivers: bool, receivers: set<Name>,
    useActors: bool, actors: set<Name>)
  {
    predicate Filtering() {
      useReceivers || useActors
    }

    predicate Blacklisted(a: Action) {
      useBlacklist && a.account in blacklist && a.name in blacklist[a.account]
    }

    predicate Matches(a: Action) {
      || (useReceivers && a.receiver in receivers)
      || (useActors && exists i :: 0 <= i < |a.actors| && a.actors[i] in actors)
    }
  }

  datatype Verdict = Publish | Drop | Invalid

  predicate Known(a: Action) {
    a.variant <= 1
  }

  /** The first action that is unknown, blacklisted or matching decides. */
  ghost predicate Decides(f: Filter, actions: seq<Action>, i: nat) {
    && i < |actions|
    && (!Known(actions[i]) || f.Blacklisted(actions[i]) || f.Matches(actions[i]))
    && forall j :: 0 <= j < i ==> Known(actions[j]) && !f.Blacklisted(actions[j]) && !f.Matches(actions[j])
  }

  /** Some action matches, and no action up to it is blacklisted or unknown. */
  ghost predicate CleanMatch(f: Filter, actions: seq<Action>) {
    exists i :: 0 <= i < |actions| && f.Matches(actions[i])
                && forall j :: 0 <= j <= i ==> Known(actions[j]) && !f.Blacklisted(actions[j])
  }

  /** The first action of an unknown variant comes before anything that ends the scan. */
  ghost predicate MeetsUnknown(f: Filter, actions: seq<Action>) {
    exists i :: 0 <= i < |actions| && !Known(actions[i])
                && forall j :: 0 <= j < i ==> Known(actions[j]) && !f.Blacklisted(actions[j]) && !f.Matches(actions[j])
  }

  /** What the scan amounts to. Without filters a trace is published if it has no blacklisted
      action; with filters, if an action matches before any blacklisted one. */
  ghost predicate Published(f: Filter, actions: seq<Action>) {
    if f.Filtering() then CleanMatch(f, actions)
    else forall i :: 0 <= i < |actions| ==> !f.Blacklisted(actions[i])
  }

  predicate Scanned(f: Filter) {
    f.Filtering() || f.useBlacklist
  }

  method MatchesActor(f: Filter, a: Action) returns (matched: bool)
    ensures matched <==> exists i :: 0 <= i < |a.actors| && a.actors[i] in f.actors
  {
    for i := 0 to |a.actors|
      invariant forall j :: 0 <= j < i ==> a.actors[j] !in f.actors
    {
      if a.actors[i] in f.actors {
        return true;
      }
    }
    return false;
  }

  /** The verdict on one trace; traces are not looked at when nothing is configured. */
  method Judge(f: Filter, actions: seq<Action>) returns (v: Verdict)
    ensures v == Invalid <==> Scanned(f) && MeetsUnknown(f, actions)
    ensures v != Invalid ==> (v == Publish <==> Published(f, actions))
  {
    var onBlacklist, matched := false, false;
    if f.Filtering() || f.useBlacklist {
      var i := 0;
      while i < |actions|
        invariant 0 <= i <= |actions|
        invariant !onBlacklist && !matched
        invariant forall j :: 0 <= j < i ==> Known(actions[j]) && !f.Blacklisted(actions[j]) && !f.Matches(actions[j])
      {
        var a := actions[i];
        if a.variant > 1 {
          return Invalid;
        }
        if f.useBlacklist && a.account in f.blacklist && a.name in f.blacklist[a.account] {
          onBlacklist := true;
          break;
        }
        if f.useReceivers && a.receiver in f.receivers {
          matched := true;
          break;
        }
        if f.useActors {
          matched := MatchesActor(f, a);
          if matched {
            break;
          }
        }
        i := i + 1;
      }
      assert (onBlacklist || matched) ==> i < |actions| && Decides(f, actions, i);
    }
    v := if !onBlacklist && (!f.Filtering() || matched) then Publish else Drop;
  }

  // ---- The traces of a block ----

  /** The traces of a block that are published, in their order, up to one that cannot be
      handled. */
  ghost function Selected(f: Filter, traces: seq<seq<Action>>): seq<seq<Action>> {
    if traces == [] then []
    else if Scanned(f) && MeetsUnknown(f, traces[0]) then []
    else (if Published(f, traces[0]) then [traces[0]] else []) + Selected(f, traces[1..])
  }

  lemma SelectedAt(f: Filter, traces: seq<seq<Action>>, i: nat)
    requires i <= |traces|
    ensures Selected(f, traces[i..]) ==
            if i == |traces| || (Scanned(f) && MeetsUnknown(f, traces[i])) then []
            else (if Published(f, traces[i]) then [traces[i]] else []) + Selected(f, traces[i + 1..])
  {
    hide MeetsUnknown, Published, Scanned;
    if i < |traces| {
      assert traces[i..][0] == traces[i] && traces[i..][1..] == traces[i + 1..];
    }
  }

  method ReceiveTraces(f: Filter, traces: seq<seq<Action>>) returns (published: seq<seq<Action>>, ok: bool)
    ensures published == Selected(f, traces)
    ensures ok <==> !Scanned(f) || forall i :: 0 <= i < |traces| ==> !MeetsUnknown(f, traces[i])
  {
    hide MeetsUnknown, Published, Scanned, Selected;
    published := [];
    assert traces[0..] == traces;
    for i := 0 to |traces|
      invariant published + Selected(f, traces[i..]) == Selected(f, traces)
      invariant Scanned(f) ==> forall j :: 0 <= j < i ==> !MeetsUnknown(f, traces[j])
    {
      SelectedAt(f, traces, i);
      var v := Judge(f, traces[i]);
      if v == Invalid {
        return published, false;
      }
      if v == Publish {
        published := published + [traces[i]];
      }
    }
    SelectedAt(f, traces, |traces|);
    return published, true;
  }

  /** The number of traces before the first one that cannot be handled. */
  ghost function Handled(f: Filter, traces: seq<seq<Action>>): (n: nat)
    ensures n <= |traces|
    ensures forall i :: 0 <= i < n ==> !(Scanned(f) && MeetsUnknown(f, traces[i]))
    ensures n < |traces| ==> Scanned(f) && MeetsUnknown(f, traces[n])
  {
    if traces == [] || (Scanned(f) && MeetsUnknown(f, traces[0])) then 0 else 1 + Handled(f, traces[1..])
  }

  /** The positions of those of the first n traces that are to be published. */
  ghost function Positions(f: Filter, traces: seq<seq<Action>>, n: nat): (ps: seq<nat>)
    requires n <= |traces|
    ensures forall i :: 0 <= i < |ps| ==> ps[i] < n && Published(f, traces[ps[i]])
    ensures forall i, j :: 0 <= i < j < |ps| ==> ps[i] < ps[j]
    ensures forall p :: 0 <= p < n && Published(f, traces[p]) ==> p in ps
  {
    if n == 0 then []
    else
      var before := Positions(f, traces, n - 1);
      if Published(f, traces[n - 1]) then before + [n - 1] else before
  }

  /** Published are, in their order and each once, all traces before the first one that cannot
      be handled that the filter lets through, and no other. */
  lemma SelectedInOrder(f: Filter, traces: seq<seq<Action>>)
    ensures var ps := Positions(f, traces, Handled(f, traces));
            && |Selected(f, traces)| == |ps|
            && forall i :: 0 <= i < |ps| ==> Selected(f, traces)[i] == traces[ps[i]]
  {
    hide Published, MeetsUnknown, Scanned;
    SelectedFrom(f, traces, 0);
    assert traces[0..] == traces;
    assert Positions(f, traces, 0) == [];
  }

  /** The suffix from position k on is selected as the positions from there on say. */
  lemma {:induction false} SelectedFrom(f: Filter, traces: seq<seq<Action>>, k: nat)
    requires k <= Handled(f, traces)
    ensures var ps, before := Positions(f, traces, Handled(f, traces)), Positions(f, traces, k);
            && before <= ps
            && |Selected(f, traces[k..])| == |ps| - |before|
            && forall i :: |before| <= i < |ps| ==> Selected(f, traces[k..])[i - |before|] == traces[ps[i]]
    decreases Handled(f, traces) - k
  {
    hide Published, MeetsUnknown, Scanned, Handled, Positions, Selected;
    var n := Handled(f, traces);
    if k < n {
      SelectedFrom(f, traces, k + 1);
      SelectedNext(f, traces, k);
      var ps, before := Positions(f, traces, n), Positions(f, traces, k);
      if Published(f, traces[k]) {
        assert ps[|before|] == Positions(f, traces, k + 1)[|before|];
      }
    } else {
      SelectedEnd(f, traces);
    }
  }

  lemma SelectedNext(f: Filter, traces: seq<seq<Action>>, k: nat)
    requires k < |traces| && !(Scanned(f) && MeetsUnknown(f, traces[k]))
    ensures Selected(f, traces[k..])
            == (if Published(f, traces[k]) then [traces[k]] else []) + Selected(f, traces[k + 1..])
    ensures Positions(f, traces, k + 1)
            == Positions(f, traces, k) + (if Published(f, traces[k]) then [k] else [])
  {
    hide Published, MeetsUnknown, Scanned, Selected;
    SelectedAt(f, traces, k);
  }

  lemma SelectedEnd(f: Filter, traces: seq<seq<Action>>)
    ensures Selected(f, traces[Handled(f, traces)..]) == []
  {
    hide Published, MeetsUnknown, Scanned;
    SelectedAt(f, traces, Handled(f, traces));
  }

  // ---- The rule, action by action ----

  predicate Listed(f: Filter, a: Action) {
    f.useBlacklist && a.account in f.blacklist && a.name in f.blacklist[a.account]
  }

  predicate Watched(f: Filter, a: Action) {
    || (f.useReceivers && a.receiver in f.receivers)
    || (f.useActors && exists i :: 0 <= i < |a.actors| && a.actors[i] in f.actors)
  }

  /** Position n + 1 of a trace with one more action in front is position n. */
  lemma OneInFront(a: Action, rest: seq<Action>, n: nat)
    requires n < |rest|
    ensures ([a] + rest)[n + 1] == rest[n]
  {
  }

  lemma CleanByFirst(f: Filter, a: Action, rest: seq<Action>)
    requires a.variant <= 1
    ensures CleanMatch(f, [a] + rest) <==> !Listed(f, a) && (Watched(f, a) || CleanMatch(f, rest))
  {
    hide Filter.Matches, Watched, Filter.Blacklisted, Listed;
    RawTests(f, a);
    var actions := [a] + rest;
    if CleanMatch(f, actions) {
      var i :| 0 <= i < |actions| && f.Matches(actions[i])
               && forall j :: 0 <= j <= i ==> Known(actions[j]) && !f.Blacklisted(actions[j]);
      assert actions[0] == a;
      if 0 < i {
        forall j | 0 <= j <= i - 1 ensures Known(rest[j]) && !f.Blacklisted(rest[j]) {
          OneInFront(a, rest, j);
        }
        OneInFront(a, rest, i - 1);
      }
    }
    if CleanMatch(f, rest) && !Listed(f, a) {
      var i :| 0 <= i < |rest| && f.Matches(rest[i])
               && forall j :: 0 <= j <= i ==> Known(rest[j]) && !f.Blacklisted(rest[j]);
      OneInFront(a, rest, i);
      forall j | 0 <= j <= i + 1 ensures Known(actions[j]) && !f.Blacklisted(actions[j]) {
        if 0 < j {
          OneInFront(a, rest, j - 1);
        }
      }
      assert CleanMatch(f, actions);
    }
    if Watched(f, a) && !Listed(f, a) {
      assert actions[0] == a;
      assert CleanMatch(f, actions);
    }
  }

  lemma UnknownByFirst(f: Filter, a: Action, rest: seq<Action>)
    ensures MeetsUnknown(f, [a] + rest) <==>
            a.variant > 1 || (!Listed(f, a) && !Watched(f, a) && MeetsUnknown(f, rest))
  {
    hide Filter.Matches, Watched, Filter.Blacklisted, Listed;
    RawTests(f, a);
    var actions := [a] + rest;
    assert actions[0] == a;
    if MeetsUnknown(f, actions) {
      var i :| 0 <= i < |actions| && !Known(actions[i])
               && forall j :: 0 <= j < i ==>
                    Known(actions[j]) && !f.Blacklisted(actions[j]) && !f.Matches(actions[j]);
      if 0 < i {
        forall j | 0 <= j < i - 1 ensures Known(rest[j]) && !f.Blacklisted(rest[j]) && !f.Matches(rest[j]) {
          OneInFront(a, rest, j);
        }
        OneInFront(a, rest, i - 1);
      }
    }
    if MeetsUnknown(f, rest) && !Listed(f, a) && !Watched(f, a) && Known(a) {
      var i :| 0 <= i < |rest| && !Known(rest[i])
               && forall j :: 0 <= j < i ==> Known(rest[j]) && !f.Blacklisted(rest[j]) && !f.Matches(rest[j]);
      OneInFront(a, rest, i);
      forall j | 0 <= j < i + 1
        ensures Known(actions[j]) && !f.Blacklisted(actions[j]) && !f.Matches(actions[j])
      {
        if 0 < j {
          OneInFront(a, rest, j - 1);
        }
      }
      assert MeetsUnknown(f, actions);
    }
  }

  lemma RawTests(f: Filter, a: Action)
    ensures f.Blacklisted(a) <==> Listed(f, a)
    ensures f.Matches(a) <==> Watched(f, a)
  {
  }

  lemma NoneListed(f: Filter, a: Action, rest: seq<Action>)
    ensures var actions := [a] + rest;
            (forall i :: 0 <= i < |actions| ==> !f.Blacklisted(actions[i]))
            <==> !Listed(f, a) && forall i :: 0 <= i < |rest| ==> !f.Blacklisted(rest[i])
  {
    hide Filter.Blacklisted, Listed;
    RawTests(f, a);
    var actions := [a] + rest;
    assert actions[0] == a && forall i :: 0 <= i < |rest| ==> actions[i + 1] == rest[i];
    if !f.Blacklisted(a) && forall i :: 0 <= i < |rest| ==> !f.Blacklisted(rest[i]) {
      forall i | 0 <= i < |actions| ensures !f.Blacklisted(actions[i]) {
        assert 0 < i ==> actions[i] == rest[i - 1];
      }
    }
  }

  /** The verdict by the first action and the verdict on the rest: a blacklisted one drops the
      trace, a watched one lets it through, one of an unknown variant cannot be handled, any
      other leaves it to the rest; and without any action only filters drop the trace. */
  lemma ByFirstAction(f: Filter, a: Action, rest: seq<Action>)
    ensures var filtering := f.useReceivers || f.useActors;
            && (Published(f, []) <==> !filtering) && !MeetsUnknown(f, [])
            && (a.variant <= 1 ==>
                  (Published(f, [a] + rest) <==>
                    !Listed(f, a) && ((filtering && Watched(f, a)) || Published(f, rest))))
            && (MeetsUnknown(f, [a] + rest) <==>
                  a.variant > 1 || (!Listed(f, a) && !Watched(f, a) && MeetsUnknown(f, rest)))
  {
    hide CleanMatch, Listed, Filter.Blacklisted;
    UnknownByFirst(f, a, rest);
    NoneListed(f, a, rest);
    NothingClean(f);
    if a.variant <= 1 {
      CleanByFirst(f, a, rest);
    }
  }

  lemma NothingClean(f: Filter)
    ensures !CleanMatch(f, [])
  {
  }

  // ---- The documented rule ----

  /** The documentation gives the blacklist absolute precedence. */
  ghost predicate Documented(f: Filter, actions: seq<Action>) {
    && (forall i :: 0 <= i < |actions| ==> !f.Blacklisted(actions[i]))
    && (f.Filtering() ==> exists i :: 0 <= i < |actions| && f.Matches(actions[i]))
  }

  /** The scan follows the documented rule unless a filter matches before a blacklisted action
      is reached; then the trace is published against the documentation. */
  lemma DocumentedIff(f: Filter, actions: seq<Action>)
    requires forall i :: 0 <= i < |actions| ==> Known(actions[i])
    ensures (Published(f, actions) <==> Documented(f, actions))
            <==> !(f.Filtering() && CleanMatch(f, actions)
                   && exists i :: 0 <= i < |actions| && f.Blacklisted(actions[i]))
  {
    if Documented(f, actions) && f.Filtering() {
      var i :| 0 <= i < |actions| && f.Matches(actions[i]);
      assert CleanMatch(f, actions);
    }
  }

  /** A transfer that notifies a watched account, followed by a blacklisted action. */
  lemma BlacklistOverruled()
    ensures var f := Filter(true, map[7 := {70}], true, {5}, false, {});
            var actions := [Action(0, 1, 10, 5, []), Action(0, 7, 70, 7, [])];
            Published(f, actions) && !Documented(f, actions)
  {
    var f := Filter(true, map[7 := {70}], true, {5}, false, {});
    var actions := [Action(0, 1, 10, 5, []), Action(0, 7, 70, 7, [])];
    assert f.Matches(actions[0]) && !f.Blacklisted(actions[0]) && f.Blacklisted(actions[1]);
  }
}
