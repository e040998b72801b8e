// A repair session: preview, apply and undo over a working set of geometry texts.
module RepairSessions {
  import opened Common
  import CoverageRun

  type Texts = seq<string>

  // The repairer behind the port: deterministic, and raising on texts it cannot read.
  type Repairer = Texts -> Result<CoverageRun.CoverageResult>

  // ---- the session without a cache ---------------------------------------------------

  datatype Op = Preview | Apply | Undo

  datatype Plain = Plain(current: Texts, history: seq<Texts>)
  {
    // Every state still reachable by undo, oldest first, and the current one.
    function States(): (r: seq<Texts>)
      ensures |r| == |history| + 1
    {
      history + [current]
    }
  }

  predicate Changes(f: Repairer, current: Texts) {
    f(current).Ok? && f(current).value.after != current
  }

  function Next(f: Repairer, s: Plain, op: Op): Plain {
    match op
    case Preview => s
    case Apply => if Changes(f, s.current) then Plain(f(s.current).value.after, s.States()) else s
    case Undo => if s.history == [] then s else Plain(s.history[|s.history| - 1], s.history[..|s.history| - 1])
  }

  function After(f: Repairer, s: Plain, ops: seq<Op>): Plain {
    if ops == [] then s else Next(f, After(f, s, ops[..|ops| - 1]), ops[|ops| - 1])
  }

  ghost predicate LinkAt(f: Repairer, states: seq<Texts>, i: nat)
    requires 1 <= i < |states|
  {
    Changes(f, states[i - 1]) && states[i] == f(states[i - 1]).value.after
  }

  // Each state is the repair of the previous one and differs from it.
  ghost predicate Chain(f: Repairer, states: seq<Texts>) {
    forall i :: 1 <= i < |states| ==> LinkAt(f, states, i)
  }

  // ---- the session object ---------------------------------------------------------------

  class UndoEngine {
    var history: seq<Texts>

    constructor ()
      ensures history == []
    {
      history := [];
    }

    method Push(state: Texts)
      modifies this
      ensures history == old(history) + [state]
    {
      history := history + [state];
    }

    // The most recent state, or an error when there is none.
    method Undo() returns (r: Result<Texts>)
      modifies this
      ensures old(history) == [] ==> r.Err? && history == []
      ensures r.Ok? ==> history + [r.value] == old(history)
      ensures r.Ok? <==> old(history) != []
    {
      if history == [] {
        return Err("nothing to undo");
      }
      r := Ok(history[|history| - 1]);
      history := history[..|history| - 1];
    }
  }

  class RepairSession {
    const repairer: Repairer
    const undo: UndoEngine
    var current: Texts
    var preview: Option<CoverageRun.CoverageResult>
    ghost const original: Texts
    ghost var log: seq<Op>

    ghost function State(): Plain
      reads this, undo
    {
      Plain(current, undo.history)
    }

    // A cached preview is a fresh one, and the cache never shows: the state is the one the
    // cache-free session reaches with the same calls.
    ghost predicate Valid()
      reads this, undo
    {
      && (preview.Some? ==> repairer(current) == Ok(preview.value))
      && State() == After(repairer, Plain(original, []), log)
    }

    constructor (texts: Texts, repairer: Repairer)
      ensures Valid() && fresh(undo) && this.repairer == repairer && original == texts && log == []
      ensures State() == Plain(texts, [])
    {
      this.repairer := repairer;
      undo := new UndoEngine();
      current, original := texts, texts;
      preview := None;
      log := [];
    }

    // The cache is used only when its starting texts are the current ones.
    method ComputePreview() returns (r: Result<CoverageRun.CoverageResult>)
      requires Valid()
      modifies this`preview
      ensures r == repairer(current)
      ensures preview.Some? ==> r == Ok(preview.value)
    {
      if preview.None? || preview.value.before != current {
        var result := repairer(current);
        if result.Err? {
          return result;
        }
        preview := Some(result.value);
      }
      r := Ok(preview.value);
    }

    method PreviewResult() returns (r: Result<CoverageRun.CoverageResult>)
      requires Valid()
      modifies this`preview, this`log
      ensures Valid() && log == old(log) + [Preview]
      ensures r == repairer(current)
    {
      r := ComputePreview();
      log := log + [Preview];
    }

    // Commits exactly what a preview of the same state shows; errors change nothing.
    method Apply() returns (r: Result<CoverageRun.CoverageResult>)
      requires Valid()
      modifies this`preview, this`current, this`log, undo
      ensures Valid() && log == old(log) + [Op.Apply]
      ensures r == repairer(old(current))
      ensures r.Err? ==> State() == old(State())
      ensures r.Ok? ==> current == r.value.after
      ensures r.Ok? && r.value.after != old(current) ==> State().history == old(State().States())
    {
      r := ComputePreview();
      log := log + [Op.Apply];
      if r.Err? {
        return;
      }
      if r.value.after != current {
        undo.Push(current);
        current := r.value.after;
      }
      preview := None;
    }

    method UndoLast() returns (r: Result<Texts>)
      requires Valid()
      modifies this`preview, this`current, this`log, undo
      ensures Valid() && log == old(log) + [Undo]
      ensures r.Err? <==> old(State().history) == []
      ensures r.Err? ==> State() == old(State())
      ensures r.Ok? ==> r.value == current && State().States() == old(State().history)
    {
      r := undo.Undo();
      log := log + [Undo];
      if r.Ok? {
        current := r.value;
        preview := None;
      }
    }
  }

  // ---- every run ------------------------------------------------------------------------

  lemma {:induction false} EveryRunIsAChain(f: Repairer, original: Texts, ops: seq<Op>)
    ensures var states := After(f, Plain(original, []), ops).States();
      Chain(f, states) && states[0] == original
  {
    if ops != [] {
      EveryRunIsAChain(f, original, ops[..|ops| - 1]);
      var before := After(f, Plain(original, []), ops[..|ops| - 1]);
      var earlier, states := before.States(), Next(f, before, ops[|ops| - 1]).States();
      forall i | 1 <= i < |states| ensures LinkAt(f, states, i) {
        if i < |earlier| {
          assert LinkAt(f, earlier, i);
        }
      }
    }
  }

  function Undos(n: nat): (r: seq<Op>)
    ensures |r| == n
  {
    if n == 0 then [] else Undos(n - 1) + [Undo]
  }

  lemma {:induction false} UndoSteps(f: Repairer, s: Plain, n: nat)
    requires n <= |s.history|
    ensures var r := After(f, s, Undos(n));
      && r.current == s.States()[|s.history| - n]
      && r.history == s.history[..|s.history| - n]
  {
    if n > 0 {
      UndoSteps(f, s, n - 1);
      assert Undos(n)[..n - 1] == Undos(n - 1);
    }
  }

  // As many undos as the session's depth restore the original working set, whatever happened.
  lemma {:induction false} UndoingEverythingRestoresTheOriginal(f: Repairer, original: Texts, ops: seq<Op>)
    ensures var s := After(f, Plain(original, []), ops);
      After(f, s, Undos(|s.history|)) == Plain(original, [])
  {
    var s := After(f, Plain(original, []), ops);
    EveryRunIsAChain(f, original, ops);
    UndoSteps(f, s, |s.history|);
  }

  // An undo right after an apply brings the working set back exactly when the apply changed
  // something or there was nothing to undo: after an apply that changes nothing, it takes back
  // an earlier one.
  lemma {:induction false} UndoRestoresExactlyWhen(f: Repairer, original: Texts, ops: seq<Op>)
    ensures var s := After(f, Plain(original, []), ops);
      (Next(f, Next(f, s, Apply), Undo).current == s.current <==> Changes(f, s.current) || s.history == [])
      && (Changes(f, s.current) ==> Next(f, Next(f, s, Apply), Undo) == s)
  {
    var s := After(f, Plain(original, []), ops);
    EveryRunIsAChain(f, original, ops);
    if !Changes(f, s.current) && s.history != [] {
      var states := s.States();
      assert LinkAt(f, states, |s.history|);
    }
  }

  // A repairer that answers the same texts whatever it is given.
  function Settled(tidy: Texts): Repairer {
    texts => Ok(CoverageRun.CoverageResult(texts, tidy, []))
  }

  // Reachable with one apply: the next apply changes nothing, so the undo after it takes back
  // the first one.
  lemma {:induction false} UndoCanGoTooFar(original: Texts, tidy: Texts)
    requires original != tidy
    ensures var f := Settled(tidy);
      var s := After(f, Plain(original, []), [Apply]);
      s == Plain(tidy, [original]) && Next(f, Next(f, s, Apply), Undo) == Plain(original, [])
  {
    var f, start := Settled(tidy), Plain(original, []);
    assert [Apply][..0] == [];
    assert After(f, start, [Apply]) == Next(f, start, Apply) == Plain(tidy, [original]);
    assert [original][..0] == [];
  }

  // Re-applying what was undone brings the same state back.
  lemma {:induction false} RedoByApply(f: Repairer, original: Texts, ops: seq<Op>)
    ensures var s := After(f, Plain(original, []), ops);
      s.history != [] ==> Next(f, Next(f, s, Undo), Apply) == s
  {
    var s := After(f, Plain(original, []), ops);
    EveryRunIsAChain(f, original, ops);
    if s.history != [] {
      var states, n := s.States(), |s.history|;
      assert LinkAt(f, states, n);
    }
  }
}
