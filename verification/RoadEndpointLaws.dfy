// What merging road endpoints keeps: every other finding, and one finding per endpoint.
module RoadEndpointLaws {
  import opened Common
  import opened RoadEndpointMerge
  import Sorting

  // ---- who is dropped, who is replaced -------------------------------------------------

  ghost predicate SameObject(members: seq<Entry>, e: Entry) {
    forall x :: x in members && x.id == e.id ==> x == e
  }

  // A member is given up unless it was kept and is listed once.
  lemma {:induction false} InRest(members: seq<Entry>, e: Entry)
    requires members != [] && SameObject(members, e)
    ensures e.id in Rest(members) <==> multiset(members)[e] > (if e == Keep(members) then 1 else 0)
  {
    var ranked := Ranked(members);
    var rest := ranked[1..];
    Sorting.SameMembers(ranked, members);
    assert ranked == [ranked[0]] + rest;
    assert multiset(members)[e] == multiset(rest)[e] + (if e == ranked[0] then 1 else 0);
    if e.id in Rest(members) {
      var j :| 0 <= j < |rest| && rest[j].id == e.id;
      assert rest[j] == ranked[j + 1];
      assert rest[j] in members;
      assert e in rest;
    }
    if multiset(rest)[e] > 0 {
      assert e in rest;
      var j :| 0 <= j < |rest| && rest[j] == e;
    }
  }

  lemma {:induction false} MembersFit(entries: seq<Entry>, k: nat, key: Key)
    requires k <= |entries|
    ensures forall e :: e in Members(entries, k, key) ==> e in entries && HasKey(e.issue, key)
    ensures forall i :: 0 <= i < k && HasKey(entries[i].issue, key) ==> entries[i] in Members(entries, k, key)
  {
    if k > 0 {
      MembersFit(entries, k - 1, key);
    }
  }

  lemma {:induction false} CoherentEntries(entries: seq<Entry>, a: Entry, b: Entry)
    requires Coherent(entries) && a in entries && b in entries && a.id == b.id
    ensures a == b
  {
    var i :| 0 <= i < |entries| && entries[i] == a;
    var j :| 0 <= j < |entries| && entries[j] == b;
  }

  // The groups are those of the whole list.
  ghost predicate Ready(groups: seq<Group>, entries: seq<Entry>) {
    Coherent(entries) && Grouped(groups, entries, |entries|) && NonEmpty(groups)
  }

  ghost predicate Chosen(group: Group, choice: Choice)
    requires group.members != []
  {
    && choice.kept == Keep(group.members).id && choice.rest == Rest(group.members)
    && HasKey(choice.merged, group.key)
  }

  // One choice per group, keeping a finding about the same endpoint.
  ghost predicate Prepared(groups: seq<Group>, entries: seq<Entry>, choices: seq<Choice>) {
    && Ready(groups, entries) && |choices| == |groups|
    && forall g :: 0 <= g < |groups| ==> Chosen(groups[g], choices[g])
  }

  lemma {:induction false} GroupMembers(groups: seq<Group>, entries: seq<Entry>, g: nat)
    requires Ready(groups, entries) && g < |groups|
    ensures forall e :: e in groups[g].members ==> e in entries && HasKey(e.issue, groups[g].key)
    ensures forall e :: e in entries && HasKey(e.issue, groups[g].key) ==> e in groups[g].members
    ensures Keep(groups[g].members) in groups[g].members
    ensures forall e :: e in entries ==> SameObject(groups[g].members, e)
  {
    assert GroupAt(groups, entries, |entries|, g);
    MembersFit(entries, |entries|, groups[g].key);
    KeepIsMember(groups[g].members);
    forall e, x | e in entries && x in groups[g].members && x.id == e.id ensures x == e {
      CoherentEntries(entries, x, e);
    }
  }

  lemma {:induction false} RestHoldsMembers(groups: seq<Group>, entries: seq<Entry>, g: nat, e: Entry)
    requires Ready(groups, entries) && g < |groups| && e in entries && e.id in Rest(groups[g].members)
    ensures HasKey(e.issue, groups[g].key)
  {
    GroupMembers(groups, entries, g);
    InRest(groups[g].members, e);
    assert e in multiset(groups[g].members);
  }

  lemma {:induction false} DroppedMeans(choices: seq<Choice>, n: nat, id: nat)
    requires n <= |choices|
    ensures id in Dropped(choices, n) <==> exists g :: 0 <= g < n && id in choices[g].rest
  {
    if n > 0 {
      DroppedMeans(choices, n - 1, id);
    }
  }

  lemma {:induction false} ReplacedValue(choices: seq<Choice>, n: nat, g: nat)
    requires g < n <= |choices| && forall i, j :: 0 <= i < j < |choices| ==> choices[i].kept != choices[j].kept
    ensures var r := Replacements(choices, n); choices[g].kept in r && r[choices[g].kept] == choices[g].merged
  {
    if g < n - 1 {
      ReplacedValue(choices, n - 1, g);
    }
  }

  lemma {:induction false} ReplacedKeys(choices: seq<Choice>, n: nat, id: nat)
    requires n <= |choices| && id in Replacements(choices, n)
    ensures exists g :: 0 <= g < n && choices[g].kept == id
  {
    if n > 0 && id in Replacements(choices, n - 1) {
      ReplacedKeys(choices, n - 1, id);
    }
  }

  lemma {:induction false} KeepsDiffer(groups: seq<Group>, entries: seq<Entry>, choices: seq<Choice>)
    requires Prepared(groups, entries, choices)
    ensures forall i, j :: 0 <= i < j < |choices| ==> choices[i].kept != choices[j].kept
  {
    forall i, j | 0 <= i < j < |choices| ensures choices[i].kept != choices[j].kept {
      GroupMembers(groups, entries, i);
      GroupMembers(groups, entries, j);
      var a, b := Keep(groups[i].members), Keep(groups[j].members);
      assert Chosen(groups[i], choices[i]) && Chosen(groups[j], choices[j]);
      if a.id == b.id {
        CoherentEntries(entries, a, b);
        assert false;
      }
    }
  }

  lemma {:induction false} OtherIsUntouched(groups: seq<Group>, entries: seq<Entry>, choices: seq<Choice>, e: Entry)
    requires Prepared(groups, entries, choices) && e in entries && !IsEndpoint(e.issue)
    ensures e.id !in Dropped(choices, |choices|) && e.id !in Replacements(choices, |choices|)
  {
    forall g | 0 <= g < |choices| ensures e.id !in choices[g].rest && choices[g].kept != e.id {
      assert Chosen(groups[g], choices[g]);
      if e.id in choices[g].rest {
        RestHoldsMembers(groups, entries, g, e);
      }
      GroupMembers(groups, entries, g);
    }
    DroppedMeans(choices, |choices|, e.id);
    if e.id in Replacements(choices, |choices|) {
      ReplacedKeys(choices, |choices|, e.id);
    }
  }

  // The kept finding is listed once in its group.
  ghost predicate KeptOnce(members: seq<Entry>)
    requires members != []
  {
    multiset(members)[Keep(members)] == 1
  }

  lemma {:induction false} EndpointFate(groups: seq<Group>, entries: seq<Entry>, choices: seq<Choice>, g: nat, e: Entry)
    requires Prepared(groups, entries, choices) && g < |groups| && e in entries && HasKey(e.issue, groups[g].key)
    ensures e.id in Dropped(choices, |choices|) <==> !(e == Keep(groups[g].members) && KeptOnce(groups[g].members))
    ensures var r := Replacements(choices, |choices|);
      e == Keep(groups[g].members) ==> e.id in r && r[e.id] == choices[g].merged
  {
    var members := groups[g].members;
    assert Chosen(groups[g], choices[g]);
    GroupMembers(groups, entries, g);
    InRest(members, e);
    assert multiset(members)[e] > 0;
    forall h | 0 <= h < |choices| && e.id in choices[h].rest ensures h == g {
      assert Chosen(groups[h], choices[h]);
      RestHoldsMembers(groups, entries, h, e);
    }
    DroppedMeans(choices, |choices|, e.id);
    KeepsDiffer(groups, entries, choices);
    ReplacedValue(choices, |choices|, g);
  }

  // ---- the output -------------------------------------------------------------------------

  ghost function WithKey(s: seq<Issue>, key: Key): seq<Issue> {
    if s == [] then []
    else
      var front, last := WithKey(s[..|s| - 1], key), s[|s| - 1];
      if HasKey(last, key) then front + [last] else front
  }

  ghost function Others(s: seq<Issue>): seq<Issue> {
    if s == [] then []
    else
      var front, last := Others(s[..|s| - 1]), s[|s| - 1];
      if IsEndpoint(last) then front else front + [last]
  }

  function Issues(entries: seq<Entry>, k: nat): (r: seq<Issue>)
    requires k <= |entries|
  {
    if k == 0 then [] else Issues(entries, k - 1) + [entries[k - 1].issue]
  }

  lemma {:induction false} FilterLast(s: seq<Issue>, x: Issue, key: Key)
    ensures WithKey(s + [x], key) == if HasKey(x, key) then WithKey(s, key) + [x] else WithKey(s, key)
    ensures Others(s + [x]) == if IsEndpoint(x) then Others(s) else Others(s) + [x]
  {
    assert (s + [x])[..|s|] == s;
  }

  // What entry k - 1 contributes to the output.
  ghost function Contribution(e: Entry, dropped: set<nat>, replacements: map<nat, Issue>): Option<Issue> {
    if e.id in dropped then None else if e.id in replacements then Some(replacements[e.id]) else Some(e.issue)
  }

  lemma {:induction false} OutputStep(entries: seq<Entry>, k: nat, dropped: set<nat>, replacements: map<nat, Issue>,
                                      key: Key)
    requires 0 < k <= |entries|
    ensures var before, now := Output(entries, k - 1, dropped, replacements), Output(entries, k, dropped, replacements);
      match Contribution(entries[k - 1], dropped, replacements)
      case None => now == before
      case Some(x) =>
        && WithKey(now, key) == (if HasKey(x, key) then WithKey(before, key) + [x] else WithKey(before, key))
        && Others(now) == if IsEndpoint(x) then Others(before) else Others(before) + [x]
  {
    var before, c := Output(entries, k - 1, dropped, replacements), Contribution(entries[k - 1], dropped, replacements);
    if c.Some? {
      FilterLast(before, c.value, key);
    }
  }

  // What an entry contributes, by kind.
  lemma {:induction false} ContributionIs(groups: seq<Group>, entries: seq<Entry>, choices: seq<Choice>, e: Entry)
    requires Prepared(groups, entries, choices) && e in entries
    ensures var c := Contribution(e, Dropped(choices, |choices|), Replacements(choices, |choices|));
      && (!IsEndpoint(e.issue) ==> c == Some(e.issue))
      && (IsEndpoint(e.issue) && c.Some? ==> HasKey(c.value, KeyOf(e.issue)))
      && (forall g :: 0 <= g < |groups| && HasKey(e.issue, groups[g].key) ==>
            var members := groups[g].members;
            c == if e == Keep(members) && KeptOnce(members) then Some(choices[g].merged) else None)
  {
    if !IsEndpoint(e.issue) {
      OtherIsUntouched(groups, entries, choices, e);
    } else {
      forall g: nat | g < |groups| && HasKey(e.issue, groups[g].key)
        ensures var c := Contribution(e, Dropped(choices, |choices|), Replacements(choices, |choices|));
          var members := groups[g].members;
          c == if e == Keep(members) && KeptOnce(members) then Some(choices[g].merged) else None
      {
        EndpointFate(groups, entries, choices, g, e);
      }
      var i :| 0 <= i < |entries| && entries[i] == e;
      assert HasGroup(groups, KeyOf(e.issue));
      var g :| 0 <= g < |groups| && groups[g].key == KeyOf(e.issue);
    }
  }

  lemma {:induction false} OthersStep(groups: seq<Group>, entries: seq<Entry>, choices: seq<Choice>, k: nat)
    requires Prepared(groups, entries, choices) && 0 < k <= |entries|
    ensures var dropped, replacements := Dropped(choices, |choices|), Replacements(choices, |choices|);
      var before, now := Output(entries, k - 1, dropped, replacements), Output(entries, k, dropped, replacements);
      Others(before) == Others(Issues(entries, k - 1)) ==> Others(now) == Others(Issues(entries, k))
  {
    var dropped, replacements := Dropped(choices, |choices|), Replacements(choices, |choices|);
    var e := entries[k - 1];
    var c, key := Contribution(e, dropped, replacements), KeyOf(e.issue);
    assert !IsEndpoint(e.issue) ==> c == Some(e.issue) by {
      ContributionIs(groups, entries, choices, e);
    }
    assert IsEndpoint(e.issue) && c.Some? ==> IsEndpoint(c.value) by {
      ContributionIs(groups, entries, choices, e);
    }
    OutputStep(entries, k, dropped, replacements, key);
    FilterLast(Issues(entries, k - 1), e.issue, key);
  }

  lemma {:induction false} OthersStay(groups: seq<Group>, entries: seq<Entry>, choices: seq<Choice>, k: nat)
    requires Prepared(groups, entries, choices) && k <= |entries|
    ensures Others(Output(entries, k, Dropped(choices, |choices|), Replacements(choices, |choices|)))
         == Others(Issues(entries, k))
  {
    if k > 0 {
      OthersStay(groups, entries, choices, k - 1);
      OthersStep(groups, entries, choices, k);
    }
  }

  ghost predicate SoFar(merged: Issue, members: seq<Entry>, earlier: seq<Entry>, found: seq<Issue>)
    requires members != []
  {
    found == if KeptOnce(members) && Keep(members) in earlier then [merged] else []
  }

  ghost predicate IsKept(members: seq<Entry>, e: Entry)
    requires members != []
  {
    e == Keep(members) && KeptOnce(members)
  }

  // One more entry about the endpoint: nothing is added unless it is the kept one.
  lemma {:induction false} SoFarStep(merged: Issue, members: seq<Entry>, earlier: seq<Entry>, e: Entry,
                                     found: seq<Issue>)
    requires members != [] && SoFar(merged, members, earlier, found)
    requires IsKept(members, e) ==> e !in earlier
    ensures SoFar(merged, members, earlier + [e],
                  if IsKept(members, e) then found + [merged] else found)
  {
  }

  // The findings about one endpoint after the first k entries.
  ghost predicate FoundAfter(groups: seq<Group>, entries: seq<Entry>, choices: seq<Choice>, g: nat, k: nat)
    requires Prepared(groups, entries, choices) && g < |groups| && k <= |entries|
  {
    var out := Output(entries, k, Dropped(choices, |choices|), Replacements(choices, |choices|));
    SoFar(choices[g].merged, groups[g].members, Members(entries, k, groups[g].key), WithKey(out, groups[g].key))
  }

  lemma {:induction false} NothingFoundYet(groups: seq<Group>, entries: seq<Entry>, choices: seq<Choice>, g: nat)
    requires Prepared(groups, entries, choices) && g < |groups|
    ensures FoundAfter(groups, entries, choices, g, 0)
  {
  }

  lemma {:induction false} MembersGrow(entries: seq<Entry>, j: nat, k: nat, key: Key, e: Entry)
    requires j <= k <= |entries|
    ensures multiset(Members(entries, j, key))[e] <= multiset(Members(entries, k, key))[e]
  {
    if j < k {
      MembersGrow(entries, j, k - 1, key, e);
    }
  }

  // A finding listed once is not among the earlier entries.
  lemma {:induction false} ListedOnce(groups: seq<Group>, entries: seq<Entry>, g: nat, k: nat)
    requires Ready(groups, entries) && g < |groups| && 0 < k <= |entries|
    requires HasKey(entries[k - 1].issue, groups[g].key)
    requires entries[k - 1] == Keep(groups[g].members) && KeptOnce(groups[g].members)
    ensures Keep(groups[g].members) !in Members(entries, k - 1, groups[g].key)
  {
    var e, key := entries[k - 1], groups[g].key;
    assert GroupAt(groups, entries, |entries|, g);
    MembersGrow(entries, k, |entries|, key, e);
    assert multiset(Members(entries, k, key))[e] == multiset(Members(entries, k - 1, key))[e] + 1;
  }

  lemma {:induction false} EndpointStep(groups: seq<Group>, entries: seq<Entry>, choices: seq<Choice>, g: nat, k: nat)
    requires Prepared(groups, entries, choices) && g < |groups| && 0 < k <= |entries|
    requires FoundAfter(groups, entries, choices, g, k - 1)
    ensures FoundAfter(groups, entries, choices, g, k)
  {
    var dropped, replacements := Dropped(choices, |choices|), Replacements(choices, |choices|);
    var before, now := Output(entries, k - 1, dropped, replacements), Output(entries, k, dropped, replacements);
    var e, members, key := entries[k - 1], groups[g].members, groups[g].key;
    var found := WithKey(before, key);
    OutputStep(entries, k, dropped, replacements, key);
    assert e in entries;
    if HasKey(e.issue, key) {
      assert Contribution(e, dropped, replacements) == if IsKept(members, e) then Some(choices[g].merged) else None by {
        ContributionIs(groups, entries, choices, e);
      }
      if IsKept(members, e) {
        ListedOnce(groups, entries, g, k);
      }
      SoFarStep(choices[g].merged, members, Members(entries, k - 1, key), e, found);
    } else {
      assert WithKey(now, key) == found by {
        ContributionIs(groups, entries, choices, e);
      }
    }
  }

  lemma {:induction false} OnePerEndpoint(groups: seq<Group>, entries: seq<Entry>, choices: seq<Choice>,
                                          g: nat, k: nat)
    requires Prepared(groups, entries, choices) && g < |groups| && k <= |entries|
    ensures FoundAfter(groups, entries, choices, g, k)
  {
    NothingFoundYet(groups, entries, choices, g);
    for n := 0 to k
      invariant FoundAfter(groups, entries, choices, g, n)
    {
      EndpointStep(groups, entries, choices, g, n + 1);
    }
  }

  // ---- the laws ------------------------------------------------------------------------------

  lemma {:induction false} GradedStaysPut(frame: Frame, tolerance: real, members: seq<Entry>, key: Key)
    requires members != [] && HasKey(Keep(members).issue, key)
    ensures HasKey(MergedIssue(frame, tolerance, members), key)
  {
  }

  lemma {:induction false} ChoicesArePrepared(frame: Frame, tolerance: real, groups: seq<Group>, entries: seq<Entry>)
    requires Ready(groups, entries)
    ensures Prepared(groups, entries, Choices(frame, tolerance, groups))
  {
    var choices := Choices(frame, tolerance, groups);
    forall g: nat | g < |groups| ensures Chosen(groups[g], choices[g]) {
      GroupMembers(groups, entries, g);
      GradedStaysPut(frame, tolerance, groups[g].members, groups[g].key);
    }
  }

  // Findings about anything else come through unchanged and in order.
  lemma {:induction false} OtherFindingsStay(frame: Frame, tolerance: real, groups: seq<Group>, entries: seq<Entry>)
    requires Ready(groups, entries)
    ensures Others(Outcome(entries, groups, frame, tolerance)) == Others(Issues(entries, |entries|))
  {
    ChoicesArePrepared(frame, tolerance, groups, entries);
    OthersStay(groups, entries, Choices(frame, tolerance, groups), |entries|);
  }

  // ---- where everything ends up ----------------------------------------------------------------

  ghost predicate KeepsIt(group: Group, e: Entry)
    requires group.members != []
  {
    e in group.members && e == Keep(group.members) && KeptOnce(group.members)
  }

  // The entry is about something else, or it is the finding its endpoint keeps.
  ghost predicate Survives(groups: seq<Group>, e: Entry)
    requires NonEmpty(groups)
  {
    || (e.issue.code != DeadEnd && e.issue.code != NoDangles)
    || exists g: nat :: g < |groups| && KeepsIt(groups[g], e)
  }

  // Output k comes from entry at[k]: the finding itself, or the merged finding of its endpoint.
  ghost predicate ComesFrom(frame: Frame, tolerance: real, groups: seq<Group>, e: Entry, issue: Issue)
    requires NonEmpty(groups)
  {
    && (e.issue.code != DeadEnd && e.issue.code != NoDangles ==> issue == e.issue)
    && (forall g: nat :: g < |groups| && e in groups[g].members ==>
          && issue == MergedIssue(frame, tolerance, groups[g].members)
          && (frame.Valid() ==> IsMerged(frame, tolerance, groups[g].members, issue)))
  }

  // The surviving entries, in their order, each with its issue.
  ghost predicate InPlaces(frame: Frame, tolerance: real, groups: seq<Group>, entries: seq<Entry>, n: nat,
                           out: seq<Issue>, at: seq<nat>)
    requires NonEmpty(groups) && n <= |entries|
  {
    && |at| == |out|
    && (forall k :: 0 <= k < |at| ==> at[k] < n && ComesFrom(frame, tolerance, groups, entries[at[k]], out[k]))
    && (forall j, k :: 0 <= j < k < |at| ==> at[j] < at[k])
    && (forall i: nat :: i < n ==> (i in at <==> Survives(groups, entries[i])))
  }

  lemma {:induction false} AllMerged(frame: Frame, tolerance: real, groups: seq<Group>)
    requires NonEmpty(groups)
    ensures frame.Valid() ==> forall g: nat :: g < |groups| ==>
      IsMerged(frame, tolerance, groups[g].members, MergedIssue(frame, tolerance, groups[g].members))
  {
    if frame.Valid() {
      forall g: nat | g < |groups|
        ensures IsMerged(frame, tolerance, groups[g].members, MergedIssue(frame, tolerance, groups[g].members))
      {
        MergedIs(frame, tolerance, groups[g].members);
      }
    }
  }

  lemma {:induction false} InGroupMeansKey(groups: seq<Group>, entries: seq<Entry>, e: Entry)
    requires Ready(groups, entries) && e in entries
    ensures forall g: nat :: g < |groups| ==> (e in groups[g].members <==> HasKey(e.issue, groups[g].key))
    ensures IsEndpoint(e.issue) ==> exists g: nat :: g < |groups| && HasKey(e.issue, groups[g].key)
  {
    forall g: nat | g < |groups| ensures e in groups[g].members <==> HasKey(e.issue, groups[g].key) {
      GroupMembers(groups, entries, g);
    }
    if IsEndpoint(e.issue) {
      var i :| 0 <= i < |entries| && entries[i] == e;
      assert HasGroup(groups, KeyOf(e.issue));
      var g: nat :| g < |groups| && groups[g].key == KeyOf(e.issue);
      assert HasKey(e.issue, groups[g].key);
    }
  }

  lemma {:induction false} SurvivesIfItContributes(frame: Frame, tolerance: real, groups: seq<Group>,
                                                   entries: seq<Entry>, e: Entry)
    requires Ready(groups, entries) && e in entries
    ensures var choices := Choices(frame, tolerance, groups);
      Contribution(e, Dropped(choices, |choices|), Replacements(choices, |choices|)).Some? <==> Survives(groups, e)
  {
    var choices := Choices(frame, tolerance, groups);
    ChoicesArePrepared(frame, tolerance, groups, entries);
    ContributionIs(groups, entries, choices, e);
    InGroupMeansKey(groups, entries, e);
  }

  lemma {:induction false} ContributionSurvives(frame: Frame, tolerance: real, groups: seq<Group>, entries: seq<Entry>,
                                                e: Entry)
    requires Ready(groups, entries) && e in entries
    ensures var choices := Choices(frame, tolerance, groups);
      var c := Contribution(e, Dropped(choices, |choices|), Replacements(choices, |choices|));
      && (c.Some? <==> Survives(groups, e))
      && (c.Some? ==> ComesFrom(frame, tolerance, groups, e, c.value))
  {
    var choices := Choices(frame, tolerance, groups);
    SurvivesIfItContributes(frame, tolerance, groups, entries, e);
    ChoicesArePrepared(frame, tolerance, groups, entries);
    ContributionIs(groups, entries, choices, e);
    InGroupMeansKey(groups, entries, e);
    AllMerged(frame, tolerance, groups);
  }

  lemma {:induction false} OnePlaceMore(frame: Frame, tolerance: real, groups: seq<Group>, entries: seq<Entry>, n: nat,
                                        out: seq<Issue>, at: seq<nat>, c: Option<Issue>)
    requires NonEmpty(groups) && n < |entries| && InPlaces(frame, tolerance, groups, entries, n, out, at)
    requires (c.Some? <==> Survives(groups, entries[n]))
    requires c.Some? ==> ComesFrom(frame, tolerance, groups, entries[n], c.value)
    ensures var next := n + 1;
      if c.Some? then InPlaces(frame, tolerance, groups, entries, next, out + [c.value], at + [n])
      else InPlaces(frame, tolerance, groups, entries, next, out, at)
  {
    if c.Some? {
      var there := at + [n];
      assert there[|at|] == n;
      forall i: nat | i < n + 1 ensures i in there <==> Survives(groups, entries[i]) {
        assert i in there <==> i in at || i == n;
      }
    }
  }

  lemma {:induction false} OutputNext(entries: seq<Entry>, n: nat, dropped: set<nat>, replacements: map<nat, Issue>)
    requires n < |entries|
    ensures var before, c := Output(entries, n, dropped, replacements), Contribution(entries[n], dropped, replacements);
      Output(entries, n + 1, dropped, replacements) == if c.Some? then before + [c.value] else before
  {
  }

  ghost predicate PlacedUpTo(frame: Frame, tolerance: real, groups: seq<Group>, entries: seq<Entry>, n: nat,
                             at: seq<nat>)
    requires NonEmpty(groups) && n <= |entries|
  {
    var choices := Choices(frame, tolerance, groups);
    InPlaces(frame, tolerance, groups, entries, n,
             Output(entries, n, Dropped(choices, |choices|), Replacements(choices, |choices|)), at)
  }

  lemma {:induction false} NothingPlaced(frame: Frame, tolerance: real, groups: seq<Group>, entries: seq<Entry>)
    requires NonEmpty(groups)
    ensures PlacedUpTo(frame, tolerance, groups, entries, 0, [])
  {
  }

  lemma {:induction false} PlaceNext(frame: Frame, tolerance: real, groups: seq<Group>, entries: seq<Entry>, n: nat,
                                     next: nat, at: seq<nat>)
    returns (more: seq<nat>)
    requires Ready(groups, entries) && n < |entries| && next == n + 1
    requires PlacedUpTo(frame, tolerance, groups, entries, n, at)
    ensures PlacedUpTo(frame, tolerance, groups, entries, next, more)
  {
    var choices := Choices(frame, tolerance, groups);
    var dropped, replacements := Dropped(choices, |choices|), Replacements(choices, |choices|);
    var c, out := Contribution(entries[n], dropped, replacements), Output(entries, n, dropped, replacements);
    ContributionSurvives(frame, tolerance, groups, entries, entries[n]);
    OutputNext(entries, n, dropped, replacements);
    OnePlaceMore(frame, tolerance, groups, entries, n, out, at, c);
    more := if c.Some? then at + [n] else at;
  }

  // The output lists the surviving entries where they stood, endpoint findings merged.
  lemma {:induction false} OutcomeInPlaces(frame: Frame, tolerance: real, groups: seq<Group>, entries: seq<Entry>)
    returns (at: seq<nat>)
    requires Ready(groups, entries)
    ensures InPlaces(frame, tolerance, groups, entries, |entries|, Outcome(entries, groups, frame, tolerance), at)
  {
    at := [];
    NothingPlaced(frame, tolerance, groups, entries);
    for n := 0 to |entries|
      invariant PlacedUpTo(frame, tolerance, groups, entries, n, at)
    {
      at := PlaceNext(frame, tolerance, groups, entries, n, n + 1, at);
    }
  }

  // ---- one finding per endpoint ------------------------------------------------------------------

  lemma {:induction false} MergedNamesEveryCode(frame: Frame, tolerance: real, members: seq<Entry>)
    requires members != []
    ensures var merged := MergedIssue(frame, tolerance, members);
      merged.ruleCodes == Some(Codes(members)) && (merged.code == NoDangles <==> NoDangles in Codes(members))
  {
    KeepIsMember(members);
    if NoDangles in Codes(members) {
      var e :| e in members && e.issue.code == NoDangles;
    }
  }

  // Exactly one finding per endpoint comes out when the kept object is listed once, and none
  // otherwise; it is a TOP-NO-DANGLES finding when the endpoint has one, and names every code.
  lemma {:induction false} OneFindingPerEndpointExactlyWhen(frame: Frame, tolerance: real, groups: seq<Group>,
                                                            entries: seq<Entry>, g: nat)
    requires Ready(groups, entries) && g < |groups|
    ensures var members := groups[g].members;
      var found := WithKey(Outcome(entries, groups, frame, tolerance), groups[g].key);
      && (|found| == 1 <==> KeptOnce(members)) && (!KeptOnce(members) ==> found == [])
      && (KeptOnce(members) ==>
            && found == [MergedIssue(frame, tolerance, members)]
            && found[0].ruleCodes == Some(Codes(members))
            && (found[0].code == NoDangles <==> NoDangles in Codes(members)))
  {
    var members := groups[g].members;
    ChoicesArePrepared(frame, tolerance, groups, entries);
    OnePerEndpoint(groups, entries, Choices(frame, tolerance, groups), g, |entries|);
    assert GroupAt(groups, entries, |entries|, g);
    KeepIsMember(members);
    MergedNamesEveryCode(frame, tolerance, members);
  }

  ghost predicate DistinctObjects(entries: seq<Entry>) {
    forall i, j :: 0 <= i < j < |entries| ==> entries[i].id != entries[j].id
  }

  lemma {:induction false} DistinctMembers(entries: seq<Entry>, k: nat, key: Key, e: Entry)
    requires DistinctObjects(entries) && k <= |entries|
    ensures multiset(Members(entries, k, key))[e] <= 1
    ensures e in Members(entries, k, key) ==> exists i :: 0 <= i < k && entries[i] == e
  {
    if k > 0 {
      DistinctMembers(entries, k - 1, key, e);
    }
  }

  // With distinct finding objects, every endpoint has exactly one finding.
  lemma {:induction false} DistinctObjectsKeepOne(frame: Frame, tolerance: real, groups: seq<Group>,
                                                  entries: seq<Entry>, i: nat)
    requires Ready(groups, entries) && DistinctObjects(entries) && i < |entries| && IsEndpoint(entries[i].issue)
    ensures |WithKey(Outcome(entries, groups, frame, tolerance), KeyOf(entries[i].issue))| == 1
  {
    assert HasGroup(groups, KeyOf(entries[i].issue));
    var g :| 0 <= g < |groups| && groups[g].key == KeyOf(entries[i].issue);
    assert GroupAt(groups, entries, |entries|, g);
    var members := groups[g].members;
    KeepIsMember(members);
    DistinctMembers(entries, |entries|, groups[g].key, Keep(members));
    OneFindingPerEndpointExactlyWhen(frame, tolerance, groups, entries, g);
  }

  lemma {:induction false} PairMembers(e: Entry)
    requires IsEndpoint(e.issue)
    ensures Members([e, e], 2, KeyOf(e.issue)) == [e, e]
  {
    var entries, key := [e, e], KeyOf(e.issue);
    assert Members(entries, 0, key) == [];
    assert Members(entries, 1, key) == [e];
  }

  lemma {:induction false} PairIsKeptTwice(members: seq<Entry>, e: Entry)
    requires members == [e, e]
    ensures !KeptOnce(members)
  {
    KeepIsMember(members);
    assert multiset(members)[e] == 2;
  }

  lemma {:induction false} PairIsReady(e: Entry)
    requires IsEndpoint(e.issue)
    ensures Ready([Group(KeyOf(e.issue), [e, e])], [e, e])
  {
    var groups, entries := [Group(KeyOf(e.issue), [e, e])], [e, e];
    PairMembers(e);
    assert GroupAt(groups, entries, 2, 0);
    assert groups[0].key == KeyOf(e.issue);
  }

  // A list that holds one endpoint finding twice ends without any finding about the endpoint.
  lemma {:induction false} RepeatedObjectVanishes(frame: Frame, tolerance: real, e: Entry)
    requires IsEndpoint(e.issue)
    ensures var groups := [Group(KeyOf(e.issue), [e, e])];
      Ready(groups, [e, e]) && WithKey(Outcome([e, e], groups, frame, tolerance), KeyOf(e.issue)) == []
  {
    var groups := [Group(KeyOf(e.issue), [e, e])];
    PairIsReady(e);
    PairIsKeptTwice(groups[0].members, e);
    OneFindingPerEndpointExactlyWhen(frame, tolerance, groups, [e, e], 0);
  }
}
