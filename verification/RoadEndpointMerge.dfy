// Merging the two findings that describe one road endpoint, and grading the survivor by the
// nearest other road.
module RoadEndpointMerge {
  import opened Common
  import opened Rounding
  import Sorting

  datatype Code = DeadEnd | NoDangles | OtherCode(text: string)

  datatype Severity = Info | Warning | Error | Critical

  datatype Point = Point(x: real, y: real)

  // Title, message and the metadata a grade adds.
  datatype Note = AsReported(text: string) | NotNoded(other: nat) | Undershoot(other: nat, gap: real) | RoadEnd

  datatype Issue = Issue(
    code: Code, feature: Option<nat>, at: Point, severity: Severity, note: Note, ruleCodes: Option<set<Code>>)

  // A list entry: an issue object, by its identity.
  datatype Entry = Entry(id: nat, issue: Issue)

  // One object has one content.
  ghost predicate Coherent(entries: seq<Entry>) {
    forall i, j :: 0 <= i < |entries| && 0 <= j < |entries| && entries[i].id == entries[j].id ==>
      entries[i] == entries[j]
  }

  datatype Key = Key(feature: Option<nat>, x: real, y: real)

  predicate IsEndpoint(issue: Issue) {
    issue.code == DeadEnd || issue.code == NoDangles
  }

  function KeyOf(issue: Issue): Key {
    Key(issue.feature, Round6(issue.at.x), Round6(issue.at.y))
  }

  predicate HasKey(issue: Issue, key: Key) {
    IsEndpoint(issue) && KeyOf(issue) == key
  }

  // ---- grading -----------------------------------------------------------------------------

  const TOUCH_TOLERANCE := 0.000001

  // The features as the grade sees them; `query` is the spatial index.
  datatype Frame = Frame(
    count: nat, distance: (Point, nat) -> real, toEnds: (Point, nat) -> real, query: (Point, real) -> seq<nat>)
  {
    // The index misses no feature within the tolerance.
    ghost predicate Valid() {
      && (forall p, t, k :: 0 <= k < |query(p, t)| ==> query(p, t)[k] < count)
      && (forall p, t, g: nat :: g < count && distance(p, g) <= t ==> g in query(p, t))
    }

    predicate Near(p: Point, feature: Option<nat>, tolerance: real, g: nat) {
      g < count && Some(g) != feature && distance(p, g) <= tolerance
    }

    predicate NoFarther(p: Point, a: nat, b: nat) {
      distance(p, a) < distance(p, b) || (distance(p, a) == distance(p, b) && a <= b)
    }
  }

  function Nearby(frame: Frame, p: Point, feature: Option<nat>, tolerance: real, candidates: seq<nat>): (r: seq<nat>)
    ensures forall g :: g in r <==> g in candidates && frame.Near(p, feature, tolerance, g)
  {
    if candidates == [] then []
    else
      var front := Nearby(frame, p, feature, tolerance, candidates[..|candidates| - 1]);
      var last := candidates[|candidates| - 1];
      if frame.Near(p, feature, tolerance, last) then front + [last] else front
  }

  function Nearest(frame: Frame, p: Point, others: seq<nat>): (r: nat)
    requires others != []
    ensures r in others && forall g :: g in others ==> frame.NoFarther(p, r, g)
  {
    var last := others[|others| - 1];
    if |others| == 1 then last
    else
      assert others == others[..|others| - 1] + [last];
      var best := Nearest(frame, p, others[..|others| - 1]);
      if frame.NoFarther(p, best, last) then best else last
  }

  function Graded(frame: Frame, tolerance: real, issue: Issue): Issue {
    if tolerance <= 0.0 then issue
    else
      var p := Point(Round6(issue.at.x), Round6(issue.at.y));
      var nearby := Nearby(frame, p, issue.feature, tolerance, frame.query(p, tolerance));
      if nearby == [] then issue.(severity := Info, note := RoadEnd)
      else
        var other := Nearest(frame, p, nearby);
        var gap := frame.distance(p, other);
        if gap >= TOUCH_TOLERANCE then issue.(note := Undershoot(other, gap))
        else if frame.toEnds(p, other) >= TOUCH_TOLERANCE then issue.(note := NotNoded(other))
        else issue
  }

  // Another feature within the tolerance of p.
  ghost predicate InReach(frame: Frame, p: Point, feature: Option<nat>, tolerance: real, g: nat) {
    g < frame.count && feature != Some(g) && frame.distance(p, g) <= tolerance
  }

  // The nearest feature within the tolerance, over all features, the lowest index on ties.
  ghost predicate IsNearest(frame: Frame, p: Point, feature: Option<nat>, tolerance: real, other: nat) {
    && InReach(frame, p, feature, tolerance, other)
    && forall g: nat :: InReach(frame, p, feature, tolerance, g) ==>
         frame.distance(p, other) < frame.distance(p, g)
         || (frame.distance(p, other) == frame.distance(p, g) && other <= g)
  }

  // The position of a finding to six decimals.
  ghost predicate IsPlace(issue: Issue, p: Point) {
    Rounds(issue.at.x, 1000000.0, p.x) && Rounds(issue.at.y, 1000000.0, p.y)
  }

  // What the nearest other feature makes of a finding at p.
  ghost predicate GradedBy(frame: Frame, p: Point, tolerance: real, issue: Issue, graded: Issue) {
    && graded == issue.(severity := graded.severity, note := graded.note)
    && ((forall g: nat :: !InReach(frame, p, issue.feature, tolerance, g)) ==>
          graded.severity == Info && graded.note == RoadEnd)
    && (forall other :: IsNearest(frame, p, issue.feature, tolerance, other) ==>
          && graded.severity == issue.severity
          && graded.note ==
               if frame.distance(p, other) >= 0.000001 then Undershoot(other, frame.distance(p, other))
               else if frame.toEnds(p, other) >= 0.000001 then NotNoded(other) else issue.note)
  }

  lemma {:induction false} NearestIsBest(frame: Frame, p: Point, feature: Option<nat>, tolerance: real,
                                         others: seq<nat>, other: nat)
    requires forall g: nat :: InReach(frame, p, feature, tolerance, g) <==> g in others
    requires others != [] && IsNearest(frame, p, feature, tolerance, other)
    ensures other == Nearest(frame, p, others)
  {
    var best := Nearest(frame, p, others);
    assert InReach(frame, p, feature, tolerance, best) && other in others;
    assert frame.NoFarther(p, best, other);
  }

  // The grade is what the features themselves say, whatever order the index answers in; without
  // a tolerance there is none.
  lemma {:induction false} GradeByNearest(frame: Frame, tolerance: real, issue: Issue)
    requires frame.Valid()
    ensures tolerance <= 0.0 ==> Graded(frame, tolerance, issue) == issue
    ensures tolerance > 0.0 ==>
      exists p :: IsPlace(issue, p) && GradedBy(frame, p, tolerance, issue, Graded(frame, tolerance, issue))
  {
    var p := Point(Round6(issue.at.x), Round6(issue.at.y));
    var nearby := Nearby(frame, p, issue.feature, tolerance, frame.query(p, tolerance));
    forall g: nat ensures InReach(frame, p, issue.feature, tolerance, g) <==> g in nearby {
    }
    if tolerance > 0.0 {
      assert nearby != [] ==> nearby[0] in nearby;
      forall other | IsNearest(frame, p, issue.feature, tolerance, other) ensures other == Nearest(frame, p, nearby) {
        NearestIsBest(frame, p, issue.feature, tolerance, nearby, other);
      }
      assert IsPlace(issue, p);
      assert GradedBy(frame, p, tolerance, issue, Graded(frame, tolerance, issue));
    }
  }

  // ---- grouping -------------------------------------------------------------------------------

  datatype Group = Group(key: Key, members: seq<Entry>)

  // The first k entries that describe the endpoint `key`, in order.
  ghost function Members(entries: seq<Entry>, k: nat, key: Key): seq<Entry>
    requires k <= |entries|
  {
    if k == 0 then []
    else if HasKey(entries[k - 1].issue, key) then Members(entries, k - 1, key) + [entries[k - 1]]
    else Members(entries, k - 1, key)
  }

  function FindGroup(groups: seq<Group>, key: Key): (r: Option<nat>)
    ensures r.Some? ==> r.value < |groups| && groups[r.value].key == key
    ensures r.None? ==> forall g :: 0 <= g < |groups| ==> groups[g].key != key
  {
    if groups == [] then None
    else if groups[|groups| - 1].key == key then Some(|groups| - 1)
    else FindGroup(groups[..|groups| - 1], key)
  }

  ghost predicate GroupAt(groups: seq<Group>, entries: seq<Entry>, k: nat, g: nat)
    requires k <= |entries| && g < |groups|
  {
    groups[g].members == Members(entries, k, groups[g].key) && groups[g].members != []
  }

  ghost predicate HasGroup(groups: seq<Group>, key: Key) {
    exists g :: 0 <= g < |groups| && groups[g].key == key
  }

  // One group per endpoint, holding everything reported about it.
  ghost predicate Grouped(groups: seq<Group>, entries: seq<Entry>, k: nat)
    requires k <= |entries|
  {
    && (forall g: nat :: g < |groups| ==> GroupAt(groups, entries, k, g))
    && (forall g, h :: 0 <= g < h < |groups| ==> groups[g].key != groups[h].key)
    && (forall i :: 0 <= i < k && (entries[i].issue.code == DeadEnd || entries[i].issue.code == NoDangles) ==>
          HasGroup(groups, KeyOf(entries[i].issue)))
  }

  // Two findings lie at the same rounded position on the same feature.
  ghost predicate SameEndpoint(a: Issue, b: Issue) {
    a.feature == b.feature && exists p :: IsPlace(a, p) && IsPlace(b, p)
  }

  lemma {:induction false} SameKey(a: Issue, b: Issue)
    ensures KeyOf(a) == KeyOf(b) <==> SameEndpoint(a, b)
  {
    var p := Point(Round6(a.at.x), Round6(a.at.y));
    assert IsPlace(a, p);
    if q :| IsPlace(a, q) && IsPlace(b, q) {
      OneRounding(a.at.x, 1000000.0, p.x, q.x);
      OneRounding(a.at.y, 1000000.0, p.y, q.y);
      OneRounding(b.at.x, 1000000.0, Round6(b.at.x), q.x);
      OneRounding(b.at.y, 1000000.0, Round6(b.at.y), q.y);
    }
  }

  lemma {:induction false} InMembers(entries: seq<Entry>, k: nat, key: Key, i: nat)
    requires i < k <= |entries| && HasKey(entries[i].issue, key)
    ensures entries[i] in Members(entries, k, key)
  {
    if i < k - 1 {
      InMembers(entries, k - 1, key, i);
    }
  }

  lemma {:induction false} MembersHaveKey(entries: seq<Entry>, k: nat, key: Key, e: Entry)
    requires k <= |entries| && e in Members(entries, k, key)
    ensures (e.issue.code == DeadEnd || e.issue.code == NoDangles) && KeyOf(e.issue) == key
  {
    if k > 0 && e in Members(entries, k - 1, key) {
      MembersHaveKey(entries, k - 1, key, e);
    }
  }

  ghost predicate InGroup(groups: seq<Group>, g: nat, a: Entry, b: Entry) {
    g < |groups| && a in groups[g].members && b in groups[g].members
  }

  // Two findings share a group exactly when both are endpoint findings about one endpoint.
  lemma {:induction false} ShareGroupExactlyWhen(groups: seq<Group>, entries: seq<Entry>, i: nat, j: nat)
    requires Grouped(groups, entries, |entries|) && i < |entries| && j < |entries|
    ensures (exists g: nat :: InGroup(groups, g, entries[i], entries[j])) <==>
      && (entries[i].issue.code == DeadEnd || entries[i].issue.code == NoDangles)
      && (entries[j].issue.code == DeadEnd || entries[j].issue.code == NoDangles)
      && SameEndpoint(entries[i].issue, entries[j].issue)
  {
    var a, b := entries[i], entries[j];
    SameKey(a.issue, b.issue);
    if g: nat :| InGroup(groups, g, a, b) {
      assert GroupAt(groups, entries, |entries|, g);
      MembersHaveKey(entries, |entries|, groups[g].key, a);
      MembersHaveKey(entries, |entries|, groups[g].key, b);
    }
    if IsEndpoint(a.issue) && IsEndpoint(b.issue) && SameEndpoint(a.issue, b.issue) {
      assert HasGroup(groups, KeyOf(a.issue));
      var g: nat :| g < |groups| && groups[g].key == KeyOf(a.issue);
      assert GroupAt(groups, entries, |entries|, g);
      InMembers(entries, |entries|, groups[g].key, i);
      InMembers(entries, |entries|, groups[g].key, j);
      assert InGroup(groups, g, a, b);
    }
  }

  lemma {:induction false} NoMembers(groups: seq<Group>, entries: seq<Entry>, k: nat, j: nat, key: Key)
    requires j <= k <= |entries| && Grouped(groups, entries, k) && !HasGroup(groups, key)
    ensures Members(entries, j, key) == []
  {
    if j > 0 {
      NoMembers(groups, entries, k, j - 1, key);
    }
  }

  lemma {:induction false} GroupStep(before: seq<Group>, after: seq<Group>, entries: seq<Entry>, k: nat,
                                     found: Option<nat>)
    requires k < |entries| && Grouped(before, entries, k) && IsEndpoint(entries[k].issue)
    requires found == FindGroup(before, KeyOf(entries[k].issue))
    requires var key := KeyOf(entries[k].issue);
      after == if found.Some? then before[found.value := Group(key, before[found.value].members + [entries[k]])]
               else before + [Group(key, [entries[k]])]
    ensures Grouped(after, entries, k + 1)
  {
    var key := KeyOf(entries[k].issue);
    if found.None? {
      NoMembers(before, entries, k, k, key);
    }
    var next := k + 1;
    forall g: nat | g < |after| ensures GroupAt(after, entries, next, g) {
      if g < |before| {
        assert GroupAt(before, entries, k, g);
      }
    }
    forall i | 0 <= i < k + 1 && IsEndpoint(entries[i].issue) ensures HasGroup(after, KeyOf(entries[i].issue)) {
      if i < k {
        var g :| 0 <= g < |before| && before[g].key == KeyOf(entries[i].issue);
        assert after[g].key == KeyOf(entries[i].issue);
      } else {
        var g := if found.Some? then found.value else |before|;
        assert after[g].key == key;
      }
    }
  }

  lemma {:induction false} OtherStep(groups: seq<Group>, entries: seq<Entry>, k: nat)
    requires k < |entries| && Grouped(groups, entries, k) && !IsEndpoint(entries[k].issue)
    ensures Grouped(groups, entries, k + 1)
  {
    var next := k + 1;
    forall g: nat | g < |groups| ensures GroupAt(groups, entries, next, g) {
      assert GroupAt(groups, entries, k, g);
    }
  }

  method GroupEndpoints(entries: seq<Entry>) returns (groups: seq<Group>)
    ensures Grouped(groups, entries, |entries|)
  {
    groups := [];
    for k := 0 to |entries|
      invariant Grouped(groups, entries, k)
    {
      var issue := entries[k].issue;
      ghost var before := groups;
      if IsEndpoint(issue) {
        var key := KeyOf(issue);
        var found := FindGroup(groups, key);
        match found {
          case Some(g) => groups := groups[g := Group(key, groups[g].members + [entries[k]])];
          case None => groups := groups + [Group(key, [entries[k]])];
        }
        GroupStep(before, groups, entries, k, found);
      } else {
        OtherStep(groups, entries, k);
      }
    }
  }

  // ---- choosing and merging -----------------------------------------------------------------------

  // TOP-NO-DANGLES findings come first.
  predicate DanglesFirst(a: Entry, b: Entry) {
    a.issue.code == NoDangles || b.issue.code != NoDangles
  }

  function Ranked(members: seq<Entry>): (r: seq<Entry>)
    ensures multiset(r) == multiset(members) && |r| == |members|
  {
    Sorting.SameMembers(Sorting.Sort(DanglesFirst, members), members);
    Sorting.Sort(DanglesFirst, members)
  }

  function Keep(members: seq<Entry>): (r: Entry)
    requires members != []
  {
    Ranked(members)[0]
  }

  // Position k holds the first TOP-NO-DANGLES finding, or it is the first of all when there is none.
  ghost predicate ComesFirst(members: seq<Entry>, k: nat) {
    && k < |members|
    && (forall j :: 0 <= j < k ==> members[j].issue.code != NoDangles)
    && (members[k].issue.code == NoDangles || (k == 0 && forall e :: e in members ==> e.issue.code != NoDangles))
  }

  lemma {:induction false} KeepComesFirst(members: seq<Entry>) returns (k: nat)
    requires members != []
    ensures ComesFirst(members, k) && Keep(members) == members[k]
    decreases |members|
  {
    var first, rest := members[0], members[1..];
    assert members == [first] + rest;
    if rest == [] || first.issue.code == NoDangles {
      k := 0;
    } else {
      var next := KeepComesFirst(rest);
      k := if rest[next].issue.code == NoDangles then next + 1 else 0;
      forall j | 0 <= j < k ensures members[j].issue.code != NoDangles {
        assert j > 0 ==> members[j] == rest[j - 1];
      }
    }
  }

  lemma {:induction false} KeepIsMember(members: seq<Entry>)
    requires members != []
    ensures Keep(members) in members && exists k: nat :: ComesFirst(members, k) && Keep(members) == members[k]
    ensures (exists e :: e in members && e.issue.code == NoDangles) ==> Keep(members).issue.code == NoDangles
  {
    var k := KeepComesFirst(members);
  }

  function Codes(members: seq<Entry>): (r: set<Code>)
    ensures forall c :: c in r <==> exists e :: e in members && e.issue.code == c
  {
    set e | e in members :: e.issue.code
  }

  function MergedIssue(frame: Frame, tolerance: real, members: seq<Entry>): Issue
    requires members != []
  {
    Graded(frame, tolerance, Keep(members).issue.(ruleCodes := Some(Codes(members))))
  }

  ghost predicate IsGraded(frame: Frame, tolerance: real, issue: Issue, graded: Issue) {
    if tolerance <= 0.0 then graded == issue
    else exists p :: IsPlace(issue, p) && GradedBy(frame, p, tolerance, issue, graded)
  }

  // The merged finding of an endpoint: the one that comes first, with the codes of all, graded by
  // the nearest other feature when there is a tolerance.
  ghost predicate IsMerged(frame: Frame, tolerance: real, members: seq<Entry>, merged: Issue) {
    exists k: nat, codes: set<Code> ::
      && ComesFirst(members, k) && (forall c :: c in codes <==> exists e :: e in members && e.issue.code == c)
      && IsGraded(frame, tolerance, members[k].issue.(ruleCodes := Some(codes)), merged)
  }

  lemma {:induction false} MergedIs(frame: Frame, tolerance: real, members: seq<Entry>)
    requires frame.Valid() && members != []
    ensures IsMerged(frame, tolerance, members, MergedIssue(frame, tolerance, members))
  {
    var k := KeepComesFirst(members);
    var issue := members[k].issue.(ruleCodes := Some(Codes(members)));
    GradeByNearest(frame, tolerance, issue);
    assert IsGraded(frame, tolerance, issue, MergedIssue(frame, tolerance, members));
  }

  function Ids(entries: seq<Entry>): (r: set<nat>)
    ensures forall id :: id in r <==> exists j :: 0 <= j < |entries| && entries[j].id == id
  {
    set j | 0 <= j < |entries| :: entries[j].id
  }

  // The findings a group gives up.
  function Rest(members: seq<Entry>): set<nat>
    requires members != []
  {
    Ids(Ranked(members)[1..])
  }

  predicate NonEmpty(groups: seq<Group>) {
    forall g :: 0 <= g < |groups| ==> groups[g].members != []
  }

  // What happens to one group: the finding kept, those given up, and the merged finding.
  datatype Choice = Choice(kept: nat, rest: set<nat>, merged: Issue)

  function ChoiceFor(frame: Frame, tolerance: real, members: seq<Entry>): Choice
    requires members != []
  {
    Choice(Keep(members).id, Rest(members), MergedIssue(frame, tolerance, members))
  }

  function Choices(frame: Frame, tolerance: real, groups: seq<Group>): (r: seq<Choice>)
    requires NonEmpty(groups)
    ensures |r| == |groups|
  {
    seq(|groups|, g requires 0 <= g < |groups| => ChoiceFor(frame, tolerance, groups[g].members))
  }

  ghost function Dropped(choices: seq<Choice>, n: nat): set<nat>
    requires n <= |choices|
  {
    if n == 0 then {} else Dropped(choices, n - 1) + choices[n - 1].rest
  }

  ghost function Replacements(choices: seq<Choice>, n: nat): map<nat, Issue>
    requires n <= |choices|
  {
    if n == 0 then map[] else Replacements(choices, n - 1)[choices[n - 1].kept := choices[n - 1].merged]
  }

  function Output(entries: seq<Entry>, k: nat, dropped: set<nat>, replacements: map<nat, Issue>): seq<Issue>
    requires k <= |entries|
  {
    if k == 0 then []
    else
      var before, e := Output(entries, k - 1, dropped, replacements), entries[k - 1];
      if e.id in dropped then before
      else before + [if e.id in replacements then replacements[e.id] else e.issue]
  }

  function Largest(tolerances: seq<real>): (r: real)
    ensures tolerances == [] ==> r == 0.0
    ensures tolerances != [] ==> r in tolerances && forall t :: t in tolerances ==> t <= r
  {
    if tolerances == [] then 0.0
    else
      var last := tolerances[|tolerances| - 1];
      if |tolerances| == 1 then last
      else
        assert tolerances == tolerances[..|tolerances| - 1] + [last];
        var best := Largest(tolerances[..|tolerances| - 1]);
        if last > best then last else best
  }

  ghost function Outcome(entries: seq<Entry>, groups: seq<Group>, frame: Frame, tolerance: real): seq<Issue>
    requires NonEmpty(groups)
  {
    var choices := Choices(frame, tolerance, groups);
    Output(entries, |entries|, Dropped(choices, |choices|), Replacements(choices, |choices|))
  }

  // Carry out the choices, group by group.
  method Apply(choices: seq<Choice>) returns (dropped: set<nat>, replacements: map<nat, Issue>)
    ensures dropped == Dropped(choices, |choices|) && replacements == Replacements(choices, |choices|)
  {
    dropped, replacements := {}, map[];
    for n := 0 to |choices|
      invariant dropped == Dropped(choices, n) && replacements == Replacements(choices, n)
    {
      dropped := dropped + choices[n].rest;
      replacements := replacements[choices[n].kept := choices[n].merged];
    }
  }

  // Without endpoint findings the list comes back as it is.
  method MergeRoadEndpoints(entries: seq<Entry>, frame: Frame, tolerances: seq<real>)
    returns (out: seq<Issue>)
    ensures exists groups ::
      && Grouped(groups, entries, |entries|) && NonEmpty(groups)
      && out == Outcome(entries, groups, frame, Largest(tolerances))
  {
    var groups := GroupEndpoints(entries);
    forall g: nat | g < |groups| ensures groups[g].members != [] {
      assert GroupAt(groups, entries, |entries|, g);
    }
    if groups == [] {
      out := Output(entries, |entries|, {}, map[]);
      assert out == Outcome(entries, groups, frame, Largest(tolerances));
      return;
    }
    var dropped, replacements := Apply(Choices(frame, Largest(tolerances), groups));
    out := Output(entries, |entries|, dropped, replacements);
  }
}
