/** Which old→new pairs get an optimised patch: `plan_pairs`. */
module Policy {
  import opened Bytes
  import opened Sorting

  datatype Rule = Previous | LatestStable | TopInstalled | Pinned

  datatype PlannedPair = PlannedPair(old_: string, new_: string, rule: Rule)

  datatype Settings = Settings(enabled: bool, maxPairs: nat, pairs: seq<string>)

  datatype Report = Report(
    target: string,
    allPairsPossible: nat,
    planned: seq<PlannedPair>,
    skipped: seq<string>)

  // ---------- Text ----------

  /** The first place `sub` occurs at or after `i`. */
  function Find(s: string, sub: string, i: nat): (r: Option<nat>)
    requires i <= |s|
    ensures r.Some? ==> i <= r.value && r.value + |sub| <= |s|
    decreases |s| - i
  {
    if i + |sub| > |s| then None
    else if s[i..i + |sub|] == sub then Some(i)
    else if i < |s| then Find(s, sub, i + 1)
    else None
  }

  predicate Contains(s: string, sub: string) {
    Find(s, sub, 0).Some?
  }

  function Trim(s: string, space: char -> bool): string {
    if s == [] then s
    else if space(s[0]) then Trim(s[1..], space)
    else if space(s[|s| - 1]) then Trim(s[..|s| - 1], space)
    else s
  }

  predicate IsStable(version: string) {
    !Contains(version, "beta") && !Contains(version, "alpha") && !Contains(version, "rc") && '-' !in version
  }

  predicate LowerChar(a: char, b: char) {
    a < b
  }

  // ---------- Candidates ----------

  /** The inputs of a plan; `space` says which characters trimming removes. */
  datatype Plan = Plan(versions: seq<string>, distribution: Option<map<string, real>>, space: char -> bool) {
    predicate Valid() {
      |versions| >= 2
    }

    function Latest(): string
      requires Valid()
    {
      versions[|versions| - 1]
    }

    function Older(): seq<string>
      requires Valid()
    {
      versions[..|versions| - 1]
    }
  }

  type Share = (string, real)

  function ShareOf(dist: map<string, real>, v: string): real {
    if v in dist then dist[v] else 0.0
  }

  function Shares(dist: map<string, real>, older: seq<string>): (s: seq<Share>)
    ensures |s| == |older|
    ensures forall i | 0 <= i < |s| :: s[i] == (older[i], ShareOf(dist, older[i]))
  {
    seq(|older|, i requires 0 <= i < |older| => (older[i], ShareOf(dist, older[i])))
  }

  /** Larger shares first, equal ones by name. */
  predicate MoreInstalled(a: Share, b: Share) {
    a.1 > b.1 || (a.1 == b.1 && LexLeq(a.0, b.0, LowerChar))
  }

  /** Candidates up to the first version nobody has installed. */
  function Installed(shares: seq<Share>, latest: string): (c: seq<PlannedPair>)
    ensures |c| <= |shares|
  {
    if shares == [] || shares[0].1 <= 0.0 then []
    else [PlannedPair(shares[0].0, latest, TopInstalled)] + Installed(shares[1..], latest)
  }

  function LastStable(older: seq<string>): Option<string> {
    if older == [] then None
    else if IsStable(older[|older| - 1]) then Some(older[|older| - 1])
    else LastStable(older[..|older| - 1])
  }

  /** What a rule asks for, in order, and the note it leaves when it does not apply. */
  function Candidates(plan: Plan, rule: string): (seq<PlannedPair>, Option<string>)
    requires plan.Valid()
  {
    var latest, older := plan.Latest(), plan.Older();
    if rule == "previous" then ([PlannedPair(older[|older| - 1], latest, Previous)], None)
    else if rule == "latest-stable" then
      match LastStable(older)
      case Some(v) => ([PlannedPair(v, latest, LatestStable)], None)
      case None => ([], Some("latest-stable: no stable version before the target"))
    else if rule == "top-installed" then
      match plan.distribution
      case Some(dist) => (Installed(SortBy(Shares(dist, older), MoreInstalled), latest), None)
      case None => ([], Some("top-installed: no --distribution given"))
    else
      match Find(rule, "->", 0)
      case Some(at) =>
        var old_, new_ := Trim(rule[..at], plan.space), Trim(rule[at + 2..], plan.space);
        if new_ == latest && old_ in plan.versions then ([PlannedPair(old_, latest, Pinned)], None)
        else ([], Some("pinned " + rule + ": not a known old→target pair"))
      case None => ([], Some("unknown rule " + rule))
  }

  function AllCandidates(plan: Plan, rules: seq<string>): seq<PlannedPair>
    requires plan.Valid()
  {
    if rules == [] then []
    else AllCandidates(plan, rules[..|rules| - 1]) + Candidates(plan, rules[|rules| - 1]).0
  }

  function Notes(plan: Plan, rules: seq<string>): seq<string>
    requires plan.Valid()
  {
    if rules == [] then []
    else
      var note := Candidates(plan, rules[|rules| - 1]).1;
      Notes(plan, rules[..|rules| - 1]) + if note.Some? then [note.value] else []
  }

  // ---------- The plan without a cap ----------

  predicate Planned(pairs: seq<PlannedPair>, v: string) {
    exists p <- pairs :: p.old_ == v
  }

  /** Candidates other than the target, each old version once. */
  function Uncapped(latest: string, cands: seq<PlannedPair>): seq<PlannedPair> {
    if cands == [] then []
    else
      var c, rest := cands[|cands| - 1], Uncapped(latest, cands[..|cands| - 1]);
      if c.old_ == latest || Planned(rest, c.old_) then rest else rest + [c]
  }

  function Take(pairs: seq<PlannedPair>, n: nat): seq<PlannedPair> {
    pairs[..Min(n, |pairs|)]
  }

  /** More candidates only add pairs at the end. */
  lemma {:induction false} UncappedGrows(latest: string, a: seq<PlannedPair>, b: seq<PlannedPair>)
    ensures Uncapped(latest, a) <= Uncapped(latest, a + b)
  {
    if b == [] {
      assert a + b == a;
    } else {
      UncappedGrows(latest, a, b[..|b| - 1]);
      assert (a + b)[..|a + b| - 1] == a + b[..|b| - 1];
    }
  }

  // ---------- The planner ----------

  class Planner {
    const latest: string
    const maxPairs: nat
    var planned: seq<PlannedPair>

    constructor (latest: string, maxPairs: nat)
      ensures this.latest == latest && this.maxPairs == maxPairs && planned == []
    {
      this.latest, this.maxPairs, planned := latest, maxPairs, [];
    }

    /** The plan so far is the uncapped plan of the candidates seen, cut at the cap. */
    ghost predicate Follows(seen: seq<PlannedPair>)
      reads this
    {
      planned == Take(Uncapped(latest, seen), maxPairs)
    }

    method Push(old_: string, rule: Rule, ghost seen: seq<PlannedPair>) returns (more: bool)
      requires Follows(seen)
      modifies this
      ensures Follows(seen + [PlannedPair(old_, latest, rule)])
      ensures more <==> |old(planned)| < maxPairs
      ensures !more ==> planned == old(planned)
    {
      ghost var c := PlannedPair(old_, latest, rule);
      assert (seen + [c])[..|seen|] == seen;
      if |planned| >= maxPairs {
        return false;
      }
      if old_ == latest || exists p <- planned :: p.old_ == old_ {
        return true;
      }
      planned := planned + [PlannedPair(old_, latest, rule)];
      return true;
    }

    /** Once the cap is reached nothing later changes the plan. */
    lemma FullStays(seen: seq<PlannedPair>, done: seq<PlannedPair>, more: seq<PlannedPair>)
      requires Follows(seen + done) && |planned| >= maxPairs
      ensures Follows(seen + (done + more))
    {
      UncappedGrows(latest, seen + done, more);
      assert seen + done + more == seen + (done + more);
    }

    lemma InstalledStep(shares: seq<Share>, i: nat)
      requires i <= |shares|
      ensures i == |shares| || shares[i].1 <= 0.0 ==> Installed(shares[i..], latest) == []
      ensures i < |shares| && shares[i].1 > 0.0 ==>
        Installed(shares[i..], latest)
          == [PlannedPair(shares[i].0, latest, TopInstalled)] + Installed(shares[i + 1..], latest)
    {
      assert i < |shares| ==> shares[i..][1..] == shares[i + 1..];
    }

    method PushInstalled(shares: seq<Share>, ghost seen: seq<PlannedPair>)
      requires Follows(seen)
      modifies this
      ensures Follows(seen + Installed(shares, latest))
    {
      hide Uncapped, Take, Follows, Installed;
      ghost var done: seq<PlannedPair> := [];
      assert seen + [] == seen && shares[0..] == shares;
      for i := 0 to |shares|
        invariant Follows(seen + done)
        invariant done + Installed(shares[i..], latest) == Installed(shares, latest)
      {
        InstalledStep(shares, i);
        ghost var later := Installed(shares[i + 1..], latest);
        if shares[i].1 <= 0.0 {
          break;
        }
        ghost var c := PlannedPair(shares[i].0, latest, TopInstalled);
        var more := Push(shares[i].0, TopInstalled, seen + done);
        Associates(seen, done, [c]);
        Associates(done, [c], later);
        done := done + [c];
        if !more {
          FullStays(seen, done, later);
          return;
        }
      }
      InstalledStep(shares, |shares|);
      assert done + [] == done;
    }

    method Run(plan: Plan, rule: string, ghost seen: seq<PlannedPair>) returns (note: Option<string>)
      requires plan.Valid() && latest == plan.Latest() && Follows(seen)
      modifies this
      ensures Follows(seen + Candidates(plan, rule).0) && note == Candidates(plan, rule).1
    {
      hide LastStable, Installed, Shares, Find, Trim, Uncapped;
      var older := plan.Older();
      assert seen + [] == seen;
      if rule == "previous" {
        var _ := Push(older[|older| - 1], Previous, seen);
        return None;
      }
      if rule == "latest-stable" {
        match LastStable(older) {
          case Some(v) =>
            var _ := Push(v, LatestStable, seen);
            return None;
          case None =>
            return Some("latest-stable: no stable version before the target");
        }
      }
      if rule == "top-installed" {
        match plan.distribution {
          case Some(dist) =>
            PushInstalled(SortBy(Shares(dist, older), MoreInstalled), seen);
            return None;
          case None =>
            return Some("top-installed: no --distribution given");
        }
      }
      var at := Find(rule, "->", 0);
      if at.None? {
        return Some("unknown rule " + rule);
      }
      var old_, new_ := Trim(rule[..at.value], plan.space), Trim(rule[at.value + 2..], plan.space);
      if new_ == latest && old_ in plan.versions {
        var _ := Push(old_, Pinned, seen);
        return None;
      }
      return Some("pinned " + rule + ": not a known old→target pair");
    }
  }

  /** `plan_pairs`: the plan under a cap is the first pairs of the plan without one. */
  method PlanPairs(plan: Plan, settings: Settings) returns (report: Option<Report>)
    ensures report.None? <==> !plan.Valid()
    ensures report.Some? ==>
      var r := report.value;
      && r.target == plan.Latest() && r.allPairsPossible == |plan.versions| * (|plan.versions| - 1) / 2
      && r.planned == (if settings.enabled
                       then Take(Uncapped(r.target, AllCandidates(plan, settings.pairs)), settings.maxPairs) else [])
      && r.skipped == (if settings.enabled then Notes(plan, settings.pairs) else ["disabled by policy"])
  {
    hide Candidates, Uncapped;
    if |plan.versions| < 2 {
      return None;
    }
    var n, latest := |plan.versions|, plan.Latest();
    if !settings.enabled {
      return Some(Report(latest, n * (n - 1) / 2, [], ["disabled by policy"]));
    }
    var planner := new Planner(latest, settings.maxPairs);
    var skipped: seq<string> := [];
    NothingPlanned(latest);
    for i := 0 to |settings.pairs|
      invariant planner.Follows(AllCandidates(plan, settings.pairs[..i]))
      invariant skipped == Notes(plan, settings.pairs[..i])
    {
      assert settings.pairs[..i + 1][..i] == settings.pairs[..i];
      var note := planner.Run(plan, settings.pairs[i], AllCandidates(plan, settings.pairs[..i]));
      if note.Some? {
        skipped := skipped + [note.value];
      }
    }
    assert settings.pairs[..|settings.pairs|] == settings.pairs;
    return Some(Report(latest, n * (n - 1) / 2, planner.planned, skipped));
  }

  lemma NothingPlanned(latest: string)
    ensures Uncapped(latest, []) == []
  {
  }

  // ---------- What a plan is ----------

  /** No old version twice, none of them the target, all of them known. */
  predicate Sound(pairs: seq<PlannedPair>, latest: string, known: seq<string>) {
    pairs == [] ||
    var p, rest := pairs[|pairs| - 1], pairs[..|pairs| - 1];
    p.old_ != latest && p.old_ in known && p.new_ == latest && !Planned(rest, p.old_) && Sound(rest, latest, known)
  }

  lemma {:induction false} UncappedIsSound(latest: string, known: seq<string>, cands: seq<PlannedPair>)
    requires forall c <- cands :: c.old_ in known && c.new_ == latest
    ensures Sound(Uncapped(latest, cands), latest, known)
  {
    if cands != [] {
      var init := cands[..|cands| - 1];
      UncappedIsSound(latest, known, init);
      var rest := Uncapped(latest, init);
      assert (rest + [cands[|cands| - 1]])[..|rest|] == rest;
    }
  }

  lemma {:induction false} SoundPrefix(pairs: seq<PlannedPair>, latest: string, known: seq<string>, n: nat)
    requires Sound(pairs, latest, known)
    ensures Sound(Take(pairs, n), latest, known)
    decreases |pairs|
  {
    if n < |pairs| {
      SoundPrefix(pairs[..|pairs| - 1], latest, known, n);
      assert Take(pairs[..|pairs| - 1], n) == Take(pairs, n);
    } else {
      assert Take(pairs, n) == pairs;
    }
  }

  lemma {:induction false} InstalledAt(shares: seq<Share>, latest: string, i: nat)
    ensures i < |Installed(shares, latest)| ==>
      && Installed(shares, latest)[i] == PlannedPair(shares[i].0, latest, TopInstalled) && shares[i].1 > 0.0
    ensures i < |shares| && (forall k | 0 <= k <= i :: shares[k].1 > 0.0) ==> i < |Installed(shares, latest)|
    decreases |shares|
  {
    if shares != [] && shares[0].1 > 0.0 {
      assert i < |shares| && (forall k | 0 <= k <= i :: shares[k].1 > 0.0) ==>
        forall k | 0 <= k <= i - 1 :: shares[1..][k] == shares[k + 1];
      if i > 0 {
        InstalledAt(shares[1..], latest, i - 1);
      }
    }
  }

  lemma {:induction false} LastStableKnown(older: seq<string>)
    ensures LastStable(older).Some? ==> LastStable(older).value in older && IsStable(LastStable(older).value)
  {
    if older != [] && !IsStable(older[|older| - 1]) {
      LastStableKnown(older[..|older| - 1]);
    }
  }

  lemma SortedSharesKnown(dist: map<string, real>, older: seq<string>, i: nat)
    requires i < |older|
    ensures var s := SortBy(Shares(dist, older), MoreInstalled)[i]; s.0 in older && s.1 == ShareOf(dist, s.0)
  {
    var shares := Shares(dist, older);
    var sorted := SortBy(shares, MoreInstalled);
    SortKeeps(shares, MoreInstalled);
    hide SortBy;
    assert sorted[i] in multiset(sorted);
    assert sorted[i] in shares;
  }

  /** Every rule proposes known versions for the target. */
  lemma CandidatesKnown(plan: Plan, rule: string)
    requires plan.Valid()
    ensures forall c <- Candidates(plan, rule).0 :: c.old_ in plan.versions && c.new_ == plan.Latest()
  {
    var cands, older := Candidates(plan, rule).0, plan.Older();
    LastStableKnown(older);
    if rule == "top-installed" && plan.distribution.Some? {
      forall i | 0 <= i < |cands| ensures cands[i].old_ in plan.versions && cands[i].new_ == plan.Latest() {
        InstalledAt(SortBy(Shares(plan.distribution.value, older), MoreInstalled), plan.Latest(), i);
        SortedSharesKnown(plan.distribution.value, older, i);
      }
    }
  }

  lemma {:induction false} AllKnown(plan: Plan, rules: seq<string>)
    requires plan.Valid()
    ensures forall c <- AllCandidates(plan, rules) :: c.old_ in plan.versions && c.new_ == plan.Latest()
  {
    hide Candidates;
    if rules != [] {
      AllKnown(plan, rules[..|rules| - 1]);
      CandidatesKnown(plan, rules[|rules| - 1]);
    }
  }

  /** Under every cap a plan names known old versions, each once, never the target. */
  lemma PlanIsSound(plan: Plan, rules: seq<string>, cap: nat)
    requires plan.Valid()
    ensures Sound(Take(Uncapped(plan.Latest(), AllCandidates(plan, rules)), cap), plan.Latest(), plan.versions)
  {
    AllKnown(plan, rules);
    UncappedIsSound(plan.Latest(), plan.versions, AllCandidates(plan, rules));
    SoundPrefix(Uncapped(plan.Latest(), AllCandidates(plan, rules)), plan.Latest(), plan.versions, cap);
  }

  // ---------- Popular versions come first ----------

  lemma MoreInstalledOrders()
    ensures TotalPreorder(MoreInstalled)
  {
    forall a, b ensures MoreInstalled(a, b) || MoreInstalled(b, a) {
      LexTotal(a.0, b.0, LowerChar);
    }
    forall a, b, c | MoreInstalled(a, b) && MoreInstalled(b, c) ensures MoreInstalled(a, c) {
      if a.1 == b.1 == c.1 {
        LexTransitive(a.0, b.0, c.0, LowerChar);
      }
    }
  }

  lemma SortedShareAt(dist: map<string, real>, older: seq<string>, v: string) returns (j: nat)
    requires v in older
    ensures j < |older| && SortBy(Shares(dist, older), MoreInstalled)[j] == (v, ShareOf(dist, v))
  {
    hide SortBy;
    var shares := Shares(dist, older);
    var sorted := SortBy(shares, MoreInstalled);
    SortKeeps(shares, MoreInstalled);
    var at :| 0 <= at < |older| && older[at] == v;
    assert shares[at] in multiset(shares);
    assert (v, ShareOf(dist, v)) in multiset(sorted);
    j :| 0 <= j < |sorted| && sorted[j] == (v, ShareOf(dist, v));
  }

  /** In the candidates of `top-installed`, a version with a larger share comes before. */
  lemma LargerShareFirst(dist: map<string, real>, older: seq<string>, latest: string, i: nat, v: string)
    returns (j: nat)
    requires i < |Installed(SortBy(Shares(dist, older), MoreInstalled), latest)|
    requires v in older
    requires ShareOf(dist, v) > ShareOf(dist, Installed(SortBy(Shares(dist, older), MoreInstalled), latest)[i].old_)
    ensures j < i && Installed(SortBy(Shares(dist, older), MoreInstalled), latest)[j].old_ == v
  {
    hide ShareOf;
    var sorted := SortBy(Shares(dist, older), MoreInstalled);
    MoreInstalledOrders();
    SortSorts(Shares(dist, older), MoreInstalled);
    j := SortedShareAt(dist, older, v);
    InstalledAt(sorted, latest, i);
    SortedSharesKnown(dist, older, i);
    hide SortBy, Sorted, TotalPreorder, LexLeq, ShareOf, Shares, Installed;
    if j > i {
      SortedPair(sorted, MoreInstalled, i, j);
    }
    InstalledAt(sorted, latest, j);
  }

  /** An earlier candidate with a larger share, for every top-installed candidate. */
  lemma {:induction false} LargerShareEarlier(plan: Plan, dist: map<string, real>, rules: seq<string>, m: nat,
                                                v: string)
    returns (j: nat)
    requires plan.Valid() && plan.distribution == Some(dist) && m < |AllCandidates(plan, rules)|
    requires AllCandidates(plan, rules)[m].rule.TopInstalled? && v in plan.Older()
    requires ShareOf(dist, v) > ShareOf(dist, AllCandidates(plan, rules)[m].old_)
    ensures j < m && AllCandidates(plan, rules)[j].old_ == v
  {
    hide SortBy, MoreInstalled, Installed;
    var before := AllCandidates(plan, rules[..|rules| - 1]);
    if m < |before| {
      j := LargerShareEarlier(plan, dist, rules[..|rules| - 1], m, v);
    } else {
      var k := LargerShareFirst(dist, plan.Older(), plan.Latest(), m - |before|, v);
      j := |before| + k;
    }
  }

  /** A candidate other than the target is planned by the time it has been seen. */
  lemma {:induction false} SeenIsPlanned(latest: string, cands: seq<PlannedPair>, j: nat)
    requires j < |cands| && cands[j].old_ != latest
    ensures Planned(Uncapped(latest, cands), cands[j].old_)
  {
    var n := |cands| - 1;
    var rest := Uncapped(latest, cands[..n]);
    if j < n {
      SeenIsPlanned(latest, cands[..n], j);
      var p :| p in rest && p.old_ == cands[j].old_;
      assert p in Uncapped(latest, cands);
    } else if !Planned(rest, cands[n].old_) {
      assert cands[n] in Uncapped(latest, cands);
    }
  }

  /** Where a planned pair came from: what was planned before it is the plan of the candidates before. */
  lemma {:induction false} Origin(latest: string, cands: seq<PlannedPair>, i: nat) returns (m: nat)
    requires i < |Uncapped(latest, cands)|
    ensures m < |cands| && cands[m] == Uncapped(latest, cands)[i]
    ensures Uncapped(latest, cands[..m]) == Uncapped(latest, cands)[..i]
  {
    var n := |cands| - 1;
    var rest := Uncapped(latest, cands[..n]);
    if i < |rest| {
      m := Origin(latest, cands[..n], i);
      assert cands[..n][..m] == cands[..m] && Uncapped(latest, cands)[..i] == rest[..i];
    } else {
      m := n;
      assert Uncapped(latest, cands)[..i] == rest;
    }
  }

  lemma LargerSharePlanned(plan: Plan, dist: map<string, real>, rules: seq<string>, i: nat, v: string)
    requires plan.Valid() && plan.distribution == Some(dist)
    requires i < |Uncapped(plan.Latest(), AllCandidates(plan, rules))|
    requires v in plan.Older() && v != plan.Latest()
    requires var p := Uncapped(plan.Latest(), AllCandidates(plan, rules))[i];
      p.rule.TopInstalled? && ShareOf(dist, v) > ShareOf(dist, p.old_)
    ensures Planned(Uncapped(plan.Latest(), AllCandidates(plan, rules))[..i], v)
  {
    hide AllCandidates, Uncapped;
    var latest, all := plan.Latest(), AllCandidates(plan, rules);
    var m := Origin(latest, all, i);
    var j := LargerShareEarlier(plan, dist, rules, m, v);
    SeenIsPlanned(latest, all[..m], j);
  }

  /** Under every cap, no unplanned older version other than the target has a larger share than a
      pair chosen by `top-installed`. */
  lemma TopInstalledIsGreedy(plan: Plan, dist: map<string, real>, rules: seq<string>, cap: nat, i: nat, v: string)
    requires plan.Valid() && plan.distribution == Some(dist) && v in plan.Older() && v != plan.Latest()
    ensures var planned := Take(Uncapped(plan.Latest(), AllCandidates(plan, rules)), cap);
      i < |planned| && planned[i].rule.TopInstalled? && !Planned(planned, v) ==>
        ShareOf(dist, v) <= ShareOf(dist, planned[i].old_)
  {
    hide AllCandidates, Uncapped;
    var full := Uncapped(plan.Latest(), AllCandidates(plan, rules));
    var planned := Take(full, cap);
    if i < |planned| && planned[i].rule.TopInstalled? && ShareOf(dist, v) > ShareOf(dist, planned[i].old_) {
      LargerSharePlanned(plan, dist, rules, i, v);
      assert full[..i] == planned[..i];
    }
  }
}
