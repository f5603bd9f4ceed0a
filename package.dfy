/**
 * The package entry point (`variable2static/__init__.py`): the per-font
 * conflict-resolution loop of `create_static_fonts`, which threads `overwrite_mode`
 * across the selected fonts, and `main`, which keeps the `.ttf` files of the system
 * font list, sorted, and hands the user's selection to that loop.
 *
 * The filesystem is the set of paths that exist; the console is the sequence of
 * lines the overwrite prompt reads, with a position into it.
 */
module Package {
  import opened Wrappers
  import opened PyStr
  import opened FontHost
  import Ui

  /** `overwrite_mode`: `None`, `"all"` or `"skip_all"`. */
  datatype Mode = Unset | OverwriteAll | SkipAll

  /** One `(weight_name, weight_value, output_path)` of `fonts_to_create`. */
  datatype Target = Target(weight: string, value: int, path: string)

  /** One call of `create_static_font_instance`. */
  datatype Action = Instance(font: string, target: Target)

  /**
   * What persists from one font to the next: the existing paths, `overwrite_mode`,
   * how many console lines have been read, the fonts the overwrite prompt was shown
   * for, and the instance-creation calls made.
   */
  datatype State = State(existing: set<string>, mode: Mode, pos: nat, prompted: seq<string>, actions: seq<Action>)

  function Initial(existing: set<string>): State
  {
    State(existing, Unset, 0, [], [])
  }

  // ===========================================================================
  // Targets and the existence filter

  /** `os.path.join(font_dir, f"{font_basename}-{weight_name}.ttf")`. */
  function TargetPath(h: Host, font: string, weight: string): string
  {
    JoinPath(h.dirOf(font), h.stemOf(font) + "-" + weight + ".ttf")
  }

  /** `fonts_to_create` as the loop over `WEIGHTS.items()` appends it. */
  function Targets(h: Host, font: string, weights: seq<(string, int)>): seq<Target>
  {
    if weights == [] then []
    else
      var (w, v) := weights[|weights| - 1];
      Targets(h, font, weights[..|weights| - 1]) + [Target(w, v, TargetPath(h, font, w))]
  }

  /** One target per weight, in the table's order, at `{dir}/{stem}-{weight}.ttf`. */
  lemma {:induction false} TargetsPerWeight(h: Host, font: string, weights: seq<(string, int)>, i: nat)
    requires i < |weights|
    ensures |Targets(h, font, weights)| == |weights|
    ensures Targets(h, font, weights)[i] == Target(weights[i].0, weights[i].1, TargetPath(h, font, weights[i].0))
  {
    var init := weights[..|weights| - 1];
    if i < |init| {
      TargetsPerWeight(h, font, init, i);
    } else if init != [] {
      TargetsPerWeight(h, font, init, 0);
    }
  }

  /** `existing_fonts`: the `(weight_name, output_path)` of the targets that exist. */
  function Clashes(ts: seq<Target>, existing: set<string>): seq<(string, string)>
  {
    if ts == [] then []
    else
      var t := ts[|ts| - 1];
      Clashes(ts[..|ts| - 1], existing) + if t.path in existing then [(t.weight, t.path)] else []
  }

  /** There is a clash exactly when some target's path exists. */
  lemma {:induction false} ClashesIff(ts: seq<Target>, existing: set<string>)
    ensures Clashes(ts, existing) == [] <==> forall t :: t in ts ==> t.path !in existing
  {
    if ts != [] {
      var init := ts[..|ts| - 1];
      ClashesIff(init, existing);
      assert ts == init + [ts[|ts| - 1]];
    }
  }

  /** `existing_fonts` holds the weight and path of each target whose path exists, and no more. */
  lemma {:induction false} ClashesAreExistingTargets(ts: seq<Target>, existing: set<string>)
    ensures |Clashes(ts, existing)| <= |ts|
    ensures forall c :: c in Clashes(ts, existing) <==> exists t :: t in ts && t.path in existing && c == (t.weight, t.path)
  {
    if ts != [] {
      var init := ts[..|ts| - 1];
      var last := ts[|ts| - 1];
      ClashesAreExistingTargets(init, existing);
      assert ts == init + [last];
      forall c ensures c in Clashes(ts, existing) <==> exists t :: t in ts && t.path in existing && c == (t.weight, t.path) {
        if c in Clashes(init, existing) {
          var t :| t in init && t.path in existing && c == (t.weight, t.path);
          assert t in ts;
        }
      }
    }
  }

  /** `a` is `b` with some elements left out, the rest in their order. */
  predicate SubsequenceOf<T(==)>(a: seq<T>, b: seq<T>)
  {
    a == [] || (b != [] && ((a[0] == b[0] && SubsequenceOf(a[1..], b[1..])) || SubsequenceOf(a, b[1..])))
  }

  lemma {:induction false} SubsequenceOfItself<T>(a: seq<T>)
    ensures SubsequenceOf(a, a)
  {
    if a != [] {
      SubsequenceOfItself(a[1..]);
    }
  }

  /** `[(w, v, p) for w, v, p in fonts_to_create if not os.path.exists(p)]`. */
  function Missing(ts: seq<Target>, existing: set<string>): (r: seq<Target>)
    ensures forall t :: t in r <==> t in ts && t.path !in existing
    ensures forall t: Target :: t.path !in existing ==> multiset(r)[t] == multiset(ts)[t]
    ensures SubsequenceOf(r, ts)
  {
    if ts == [] then []
    else
      var rest := Missing(ts[1..], existing);
      assert ts == [ts[0]] + ts[1..];
      if ts[0].path in existing then rest else [ts[0]] + rest
  }

  /** The filter is idempotent, so applying it twice after `'S'` changes nothing. */
  lemma {:induction false} MissingIdempotent(ts: seq<Target>, existing: set<string>)
    ensures Missing(Missing(ts, existing), existing) == Missing(ts, existing)
  {
    if ts != [] {
      MissingIdempotent(ts[1..], existing);
    }
  }

  /** Without a clash the filter keeps every target. */
  lemma {:induction false} MissingWithoutClash(ts: seq<Target>, existing: set<string>)
    requires Clashes(ts, existing) == []
    ensures Missing(ts, existing) == ts
  {
    ClashesIff(ts, existing);
    KeepAll(ts, existing);
  }

  lemma {:induction false} KeepAll(ts: seq<Target>, existing: set<string>)
    requires forall t :: t in ts ==> t.path !in existing
    ensures Missing(ts, existing) == ts
  {
    if ts != [] {
      assert ts[0] in ts;
      KeepAll(ts[1..], existing);
      assert ts == [ts[0]] + ts[1..];
    }
  }

  // ===========================================================================
  // The decision for one font

  /** The `if`/`elif` chain on the choice, except `'c'`, which ends the run. */
  function Decide(choice: string, ts: seq<Target>, existing: set<string>, mode: Mode): (seq<Target>, Mode)
  {
    if choice == "o" then (ts, mode)
    else if choice == "s" then (Missing(ts, existing), mode)
    else if choice == "O" then (ts, OverwriteAll)
    else if choice == "S" then (Missing(ts, existing), SkipAll)
    else (ts, mode)
  }

  /** What one font's conflict resolution settles: what to create, and the state it leaves. */
  datatype Plan = Plan(toCreate: seq<Target>, mode: Mode, pos: nat, prompted: bool, cancelled: bool)

  /**
   * The prompt's outcome for targets `ts`, given the first accepted answer and the
   * position after it, or None when the lines run out at `end`.
   */
  function AfterPrompt(ts: seq<Target>, existing: set<string>, mode: Mode, choice: Option<(string, nat)>, end: nat): (p: Plan)
    ensures SubsequenceOf(p.toCreate, ts)
    ensures p.prompted
    ensures p.mode == SkipAll ==> forall t :: t in p.toCreate ==> t.path !in existing
    ensures p.cancelled ==> p.toCreate == []
    ensures choice.None? ==> p.toCreate == [] && !p.cancelled && p.mode == mode
  {
    SubsequenceOfItself(ts);
    match choice
    case None => Plan([], mode, end, true, false)
    case Some((c, next)) =>
      if c == "c" then Plan([], mode, next, true, true)
      else
        var (tc, m) := Decide(c, ts, existing, mode);
        if m == SkipAll then
          MissingIdempotent(ts, existing);
          Plan(Missing(tc, existing), m, next, true, false)
        else Plan(tc, m, next, true, false)
  }

  /**
   * One font up to its instance creation. A font that fails to load (an exception,
   * caught per font) or has no `fvar` is skipped. Otherwise the prompt is shown when
   * a target exists and no run-wide mode is set; the lines running out is an
   * `EOFError`, also caught per font. The `"skip_all"` filter is then applied afresh.
   */
  function PlanFor(h: Host, weights: seq<(string, int)>, font: string, st: State, answers: seq<string>, norm: Ui.Normalization): (p: Plan)
    ensures p.prompted <==> h.probe(font) == Variable && Clashes(Targets(h, font, weights), st.existing) != [] && st.mode == Unset
    ensures SubsequenceOf(p.toCreate, Targets(h, font, weights))
    ensures h.probe(font) != Variable ==> p == Plan([], st.mode, st.pos, false, false)
    ensures st.mode != Unset ==> p.mode == st.mode && p.pos == st.pos && !p.cancelled
    ensures p.mode == SkipAll ==> forall t :: t in p.toCreate ==> t.path !in st.existing
    ensures p.cancelled ==> p.toCreate == [] && p.prompted
    ensures p.prompted && Ui.NextChoice(answers, st.pos, norm).None? ==> p.toCreate == [] && !p.cancelled && p.mode == st.mode
    ensures h.probe(font) == Variable && !p.prompted ==>
      p == Plan(if st.mode == SkipAll then Missing(Targets(h, font, weights), st.existing) else Targets(h, font, weights), st.mode, st.pos, false, false)
  {
    if h.probe(font) != Variable then Plan([], st.mode, st.pos, false, false)
    else
      var ts := Targets(h, font, weights);
      SubsequenceOfItself(ts);
      if Clashes(ts, st.existing) != [] && st.mode == Unset then
        AfterPrompt(ts, st.existing, st.mode, Ui.NextChoice(answers, st.pos, norm), |answers|)
      else
        Plan(if st.mode == SkipAll then Missing(ts, st.existing) else ts, st.mode, st.pos, false, false)
  }

  /** A prompted font's plan is the prompt's outcome for its targets. */
  lemma PromptedPlan(h: Host, weights: seq<(string, int)>, font: string, st: State, answers: seq<string>, norm: Ui.Normalization)
    requires h.probe(font) == Variable && st.mode == Unset
    requires Clashes(Targets(h, font, weights), st.existing) != []
    ensures PlanFor(h, weights, font, st, answers, norm) ==
      AfterPrompt(Targets(h, font, weights), st.existing, Unset, Ui.NextChoice(answers, st.pos, norm), |answers|)
  {
  }

  /** Under `'o'` every target is created, under `'s'` exactly those that do not exist yet; `'c'` cancels. */
  lemma PromptedChoice(h: Host, weights: seq<(string, int)>, font: string, st: State, answers: seq<string>, norm: Ui.Normalization, next: nat)
    requires h.probe(font) == Variable && st.mode == Unset
    requires Clashes(Targets(h, font, weights), st.existing) != []
    ensures Ui.NextChoice(answers, st.pos, norm) == Some(("o", next)) ==>
      PlanFor(h, weights, font, st, answers, norm) == Plan(Targets(h, font, weights), Unset, next, true, false)
    ensures Ui.NextChoice(answers, st.pos, norm) == Some(("s", next)) ==>
      PlanFor(h, weights, font, st, answers, norm) == Plan(Missing(Targets(h, font, weights), st.existing), Unset, next, true, false)
    ensures Ui.NextChoice(answers, st.pos, norm) == Some(("c", next)) ==>
      PlanFor(h, weights, font, st, answers, norm) == Plan([], Unset, next, true, true)
  {
    var ts := Targets(h, font, weights);
    PromptedPlan(h, weights, font, st, answers, norm);
    PlanAfterChoice(ts, st.existing, "o", next, |answers|);
    PlanAfterChoice(ts, st.existing, "s", next, |answers|);
  }

  /**
   * Under `'O'` every target is created and the mode becomes `"all"`; under `'S'`
   * exactly the targets that do not exist yet, and the mode becomes `"skip_all"`.
   */
  lemma PromptedRunWideChoice(h: Host, weights: seq<(string, int)>, font: string, st: State, answers: seq<string>, norm: Ui.Normalization, next: nat)
    requires h.probe(font) == Variable && st.mode == Unset
    requires Clashes(Targets(h, font, weights), st.existing) != []
    ensures Ui.NextChoice(answers, st.pos, norm) == Some(("O", next)) ==>
      PlanFor(h, weights, font, st, answers, norm) == Plan(Targets(h, font, weights), OverwriteAll, next, true, false)
    ensures Ui.NextChoice(answers, st.pos, norm) == Some(("S", next)) ==>
      PlanFor(h, weights, font, st, answers, norm) == Plan(Missing(Targets(h, font, weights), st.existing), SkipAll, next, true, false)
  {
    PromptedPlan(h, weights, font, st, answers, norm);
    RunWideAfterPrompt(Targets(h, font, weights), st.existing, next, |answers|);
  }

  lemma RunWideAfterPrompt(ts: seq<Target>, existing: set<string>, next: nat, end: nat)
    ensures AfterPrompt(ts, existing, Unset, Some(("O", next)), end) == Plan(ts, OverwriteAll, next, true, false)
    ensures AfterPrompt(ts, existing, Unset, Some(("S", next)), end) == Plan(Missing(ts, existing), SkipAll, next, true, false)
  {
    PlanAfterChoice(ts, existing, "O", next, end);
    PlanAfterChoice(ts, existing, "S", next, end);
  }

  /**
   * When the lines run out at the prompt, the `EOFError` is caught by the per-font
   * handler: the font creates nothing, the mode is kept, and the input is exhausted.
   */
  lemma PromptedEndOfInput(h: Host, weights: seq<(string, int)>, font: string, st: State, answers: seq<string>, norm: Ui.Normalization)
    requires h.probe(font) == Variable && st.mode == Unset
    requires Clashes(Targets(h, font, weights), st.existing) != []
    ensures Ui.NextChoice(answers, st.pos, norm).None? ==>
      PlanFor(h, weights, font, st, answers, norm) == Plan([], Unset, |answers|, true, false)
  {
    PromptedPlan(h, weights, font, st, answers, norm);
  }

  /**
   * After an accepted answer other than `'c'`, the plan is the decision itself: the
   * second `"skip_all"` filter after `'S'` removes nothing more.
   */
  lemma PlanAfterChoice(ts: seq<Target>, existing: set<string>, c: string, next: nat, end: nat)
    requires c != "c"
    ensures var d := Decide(c, ts, existing, Unset);
      AfterPrompt(ts, existing, Unset, Some((c, next)), end) == Plan(d.0, d.1, next, true, false)
  {
    if c == "S" {
      MissingIdempotent(ts, existing);
    }
  }

  // ===========================================================================
  // Instance creation and the loop over fonts

  /** The calls of `create_static_font_instance` for `ts`, and the paths they write. */
  function CreateAll(h: Host, font: string, ts: seq<Target>, existing: set<string>, actions: seq<Action>): (r: (set<string>, seq<Action>))
    ensures |r.1| == |actions| + |ts| && r.1[..|actions|] == actions
    ensures forall i :: 0 <= i < |ts| ==> r.1[|actions| + i] == Instance(font, ts[i])
    ensures existing <= r.0
    ensures forall p :: p in r.0 ==> p in existing || exists i :: 0 <= i < |ts| && ts[i].path == p && h.saves(font, ts[i].value, p)
    ensures forall i :: 0 <= i < |ts| && h.saves(font, ts[i].value, ts[i].path) ==> ts[i].path in r.0
  {
    if ts == [] then (existing, actions)
    else
      var init := ts[..|ts| - 1];
      var t := ts[|ts| - 1];
      var (e, a) := CreateAll(h, font, init, existing, actions);
      assert forall i :: 0 <= i < |init| ==> init[i] == ts[i];
      assert (a + [Instance(font, t)])[..|actions|] == a[..|actions|];
      (if h.saves(font, t.value, t.path) then e + {t.path} else e, a + [Instance(font, t)])
  }

  /** One iteration of the loop over the selected fonts; true when it cancels the run. */
  function FontStep(h: Host, weights: seq<(string, int)>, font: string, st: State, answers: seq<string>, norm: Ui.Normalization): (State, bool)
  {
    var p := PlanFor(h, weights, font, st, answers, norm);
    var st1 := st.(mode := p.mode, pos := p.pos, prompted := if p.prompted then st.prompted + [font] else st.prompted);
    if p.cancelled then (st1, true)
    else
      var (e, a) := CreateAll(h, font, p.toCreate, st.existing, st.actions);
      (st1.(existing := e, actions := a), false)
  }

  /** The state a step leaves: the plan's mode, position and prompt, and the files and calls of its creations unless it cancels. */
  lemma FontStepState(h: Host, weights: seq<(string, int)>, font: string, st: State, answers: seq<string>, norm: Ui.Normalization)
    ensures var p := PlanFor(h, weights, font, st, answers, norm);
      var r := FontStep(h, weights, font, st, answers, norm);
      r.1 == p.cancelled && r.0.mode == p.mode && r.0.pos == p.pos &&
      r.0.prompted == (if p.prompted then st.prompted + [font] else st.prompted) &&
      (p.cancelled ==> r.0.existing == st.existing && r.0.actions == st.actions) &&
      (!p.cancelled ==> (r.0.existing, r.0.actions) == CreateAll(h, font, p.toCreate, st.existing, st.actions))
  {
  }

  /** The loop over `selected_fonts`, ending early at a cancel; true when it was cancelled. */
  function Run(h: Host, weights: seq<(string, int)>, fonts: seq<(int, string)>, st: State, answers: seq<string>, norm: Ui.Normalization): (State, bool)
    decreases |fonts|
  {
    if fonts == [] then (st, false)
    else
      var (st1, cancelled) := FontStep(h, weights, fonts[0].1, st, answers, norm);
      if cancelled then (st1, true) else Run(h, weights, fonts[1..], st1, answers, norm)
  }

  /** Running two lists of fonts one after the other is running the first, then the second unless cancelled. */
  lemma {:induction false} RunAppend(h: Host, weights: seq<(string, int)>, a: seq<(int, string)>, b: seq<(int, string)>, st: State, answers: seq<string>, norm: Ui.Normalization)
    ensures Run(h, weights, a + b, st, answers, norm) ==
      var (s1, c1) := Run(h, weights, a, st, answers, norm);
      if c1 then (s1, true) else Run(h, weights, b, s1, answers, norm)
  {
    if a != [] {
      assert (a + b)[0] == a[0] && (a + b)[1..] == a[1..] + b;
      var (st1, cancelled) := FontStep(h, weights, a[0].1, st, answers, norm);
      if !cancelled {
        RunAppend(h, weights, a[1..], b, st1, answers, norm);
      }
    } else {
      assert a + b == b;
    }
  }

  /** `'c'` ends the whole run: once cancelled, no font after it is processed. */
  lemma CancelIgnoresRest(h: Host, weights: seq<(string, int)>, a: seq<(int, string)>, b: seq<(int, string)>, st: State, answers: seq<string>, norm: Ui.Normalization)
    requires Run(h, weights, a, st, answers, norm).1
    ensures Run(h, weights, a + b, st, answers, norm) == Run(h, weights, a, st, answers, norm)
  {
    RunAppend(h, weights, a, b, st, answers, norm);
  }

  /**
   * `overwrite_mode` is only assigned at the prompt: once it is `"all"` or `"skip_all"`
   * it stays so, the prompt is never shown again, and no later line is read.
   */
  lemma {:induction false} ModeIsSticky(h: Host, weights: seq<(string, int)>, fonts: seq<(int, string)>, st: State, answers: seq<string>, norm: Ui.Normalization)
    requires st.mode != Unset
    ensures Run(h, weights, fonts, st, answers, norm).0.mode == st.mode
    ensures Run(h, weights, fonts, st, answers, norm).0.prompted == st.prompted
    ensures Run(h, weights, fonts, st, answers, norm).0.pos == st.pos
    ensures !Run(h, weights, fonts, st, answers, norm).1
    decreases |fonts|
  {
    if fonts != [] {
      var (st1, _) := FontStep(h, weights, fonts[0].1, st, answers, norm);
      ModeIsSticky(h, weights, fonts[1..], st1, answers, norm);
    }
  }

  /**
   * With the answers lowercased, as the code is written, `overwrite_mode` is never
   * set: a run that starts with it unset ends with it unset.
   */
  lemma {:induction false} LoweredAnswersNeverSetMode(h: Host, weights: seq<(string, int)>, fonts: seq<(int, string)>, st: State, answers: seq<string>)
    requires st.mode == Unset
    ensures Run(h, weights, fonts, st, answers, Ui.LowerThenStrip).0.mode == Unset
    decreases |fonts|
  {
    if fonts != [] {
      var font := fonts[0].1;
      LoweredPlanKeepsMode(h, weights, font, st, answers);
      FontStepState(h, weights, font, st, answers, Ui.LowerThenStrip);
      var (st1, c) := FontStep(h, weights, font, st, answers, Ui.LowerThenStrip);
      if !c {
        LoweredAnswersNeverSetMode(h, weights, fonts[1..], st1, answers);
      }
    }
  }

  /** One font with lowercased answers: the plan leaves the mode unset. */
  lemma LoweredPlanKeepsMode(h: Host, weights: seq<(string, int)>, font: string, st: State, answers: seq<string>)
    requires st.mode == Unset
    ensures PlanFor(h, weights, font, st, answers, Ui.LowerThenStrip).mode == Unset
  {
    var choice := Ui.NextChoice(answers, st.pos, Ui.LowerThenStrip);
    if choice.Some? {
      Ui.ChoiceIsLower(answers, st.pos);
    }
    LowerChoiceKeepsMode(Targets(h, font, weights), st.existing, choice, |answers|);
  }

  /** An answer `'o'`, `'s'` or `'c'`, or none at all, leaves an unset mode unset. */
  lemma LowerChoiceKeepsMode(ts: seq<Target>, existing: set<string>, choice: Option<(string, nat)>, end: nat)
    requires choice.Some? ==> choice.value.0 in {"o", "s", "c"}
    ensures AfterPrompt(ts, existing, Unset, choice, end).mode == Unset
  {
  }

  /**
   * With case-sensitive answers, `'S'` at the first conflicting font sets `"skip_all"`:
   * the next font is not prompted, none of its targets that already exist is created,
   * and every one that does not is.
   */
  lemma SkipAllCarriesOver(h: Host, weights: seq<(string, int)>, f1: string, f2: string, st: State, answers: seq<string>)
    requires h.probe(f1) == Variable && st.mode == Unset && st.pos < |answers| && answers[st.pos] == "S"
    requires Clashes(Targets(h, f1, weights), st.existing) != []
    ensures var (st1, c1) := FontStep(h, weights, f1, st, answers, Ui.StripOnly);
      !c1 && st1.mode == SkipAll &&
      var p2 := PlanFor(h, weights, f2, st1, answers, Ui.StripOnly);
      !p2.prompted && p2.mode == SkipAll && (forall t :: t in p2.toCreate ==> t.path !in st1.existing) &&
      (h.probe(f2) == Variable ==> p2.toCreate == Missing(Targets(h, f2, weights), st1.existing))
  {
    Ui.CaseSensitiveKeepsUpper(answers, st.pos);
    FontStepState(h, weights, f1, st, answers, Ui.StripOnly);
    var p1 := PlanFor(h, weights, f1, st, answers, Ui.StripOnly);
    assert p1.mode == SkipAll && !p1.cancelled;
  }

  /** With case-sensitive answers, `'O'` sets `"all"`: the next font is not prompted and gets every target. */
  lemma OverwriteAllCarriesOver(h: Host, weights: seq<(string, int)>, f1: string, f2: string, st: State, answers: seq<string>)
    requires h.probe(f1) == Variable && st.mode == Unset && st.pos < |answers| && answers[st.pos] == "O"
    requires Clashes(Targets(h, f1, weights), st.existing) != []
    ensures var (st1, c1) := FontStep(h, weights, f1, st, answers, Ui.StripOnly);
      !c1 && st1.mode == OverwriteAll &&
      var p2 := PlanFor(h, weights, f2, st1, answers, Ui.StripOnly);
      !p2.prompted && p2.mode == OverwriteAll &&
      (h.probe(f2) == Variable ==> p2.toCreate == Targets(h, f2, weights))
  {
    Ui.CaseSensitiveKeepsUpper(answers, st.pos);
    FontStepState(h, weights, f1, st, answers, Ui.StripOnly);
    var p1 := PlanFor(h, weights, f1, st, answers, Ui.StripOnly);
    assert p1.mode == OverwriteAll && !p1.cancelled;
  }

  /**
   * Under a set mode a font is never prompted: `"all"` creates every target and
   * `"skip_all"` exactly those that do not exist yet.
   */
  lemma StickyModePlan(h: Host, weights: seq<(string, int)>, font: string, st: State, answers: seq<string>, norm: Ui.Normalization)
    requires st.mode != Unset && h.probe(font) == Variable
    ensures var p := PlanFor(h, weights, font, st, answers, norm);
      p == Plan(if st.mode == SkipAll then Missing(Targets(h, font, weights), st.existing) else Targets(h, font, weights), st.mode, st.pos, false, false)
      && forall t :: t in p.toCreate <==> t in Targets(h, font, weights) && (st.mode == OverwriteAll || t.path !in st.existing)
  {
  }

  /** The same answer `'S'` with the code as written: the next conflicting font is prompted again. */
  lemma SkipAllForgotten(h: Host, weights: seq<(string, int)>, f1: string, f2: string, st: State, answers: seq<string>)
    requires h.probe(f1) == Variable && h.probe(f2) == Variable && st.mode == Unset
    requires Clashes(Targets(h, f1, weights), st.existing) != []
    ensures var (st1, c1) := FontStep(h, weights, f1, st, answers, Ui.LowerThenStrip);
      st1.mode == Unset &&
      (Clashes(Targets(h, f2, weights), st1.existing) != [] ==> PlanFor(h, weights, f2, st1, answers, Ui.LowerThenStrip).prompted)
  {
    LoweredPlanKeepsMode(h, weights, f1, st, answers);
    FontStepState(h, weights, f1, st, answers, Ui.LowerThenStrip);
  }

  // ===========================================================================
  // create_static_fonts, step by step

  /** The loop over `WEIGHTS.items()` that fills `fonts_to_create` and `existing_fonts`. */
  method ComputeTargets(h: Host, weights: seq<(string, int)>, font: string, existing: set<string>)
    returns (toCreate: seq<Target>, clashes: seq<(string, string)>)
    ensures toCreate == Targets(h, font, weights)
    ensures clashes == Clashes(toCreate, existing)
  {
    toCreate, clashes := [], [];
    for k := 0 to |weights|
      invariant toCreate == Targets(h, font, weights[..k])
      invariant clashes == Clashes(toCreate, existing)
    {
      var (weightName, weightValue) := weights[k];
      var outputPath := JoinPath(h.dirOf(font), h.stemOf(font) + "-" + weightName + ".ttf");
      assert weights[..k + 1][..k] == weights[..k];
      var t := Target(weightName, weightValue, outputPath);
      assert (toCreate + [t])[..|toCreate|] == toCreate;
      toCreate := toCreate + [t];
      if outputPath in existing {
        clashes := clashes + [(weightName, outputPath)];
      }
    }
    assert weights[..|weights|] == weights;
  }

  /** The loop of `create_static_font_instance` calls, each writing its path if it succeeds. */
  method CreateInstances(h: Host, font: string, toCreate: seq<Target>, existing0: set<string>, actions0: seq<Action>)
    returns (existing: set<string>, actions: seq<Action>)
    ensures (existing, actions) == CreateAll(h, font, toCreate, existing0, actions0)
  {
    existing, actions := existing0, actions0;
    for k := 0 to |toCreate|
      invariant (existing, actions) == CreateAll(h, font, toCreate[..k], existing0, actions0)
    {
      var t := toCreate[k];
      assert toCreate[..k + 1][..k] == toCreate[..k];
      actions := actions + [Instance(font, t)];
      if h.saves(font, t.value, t.path) {
        existing := existing + {t.path};
      }
    }
    assert toCreate[..|toCreate|] == toCreate;
  }

  /** The `if`/`elif` chain on the accepted answer: `'c'` cancels, any other answer is decided. */
  method ApplyAnswer(c: string, fontsToCreate: seq<Target>, existing: set<string>, mode: Mode)
    returns (toCreate: seq<Target>, newMode: Mode, cancelled: bool)
    ensures cancelled <==> c == "c"
    ensures (toCreate, newMode) == Decide(c, fontsToCreate, existing, mode)
  {
    toCreate, newMode, cancelled := fontsToCreate, mode, false;
    if c == "o" {
    } else if c == "s" {
      toCreate := Missing(fontsToCreate, existing);
    } else if c == "O" {
      newMode := OverwriteAll;
    } else if c == "S" {
      newMode := SkipAll;
      toCreate := Missing(fontsToCreate, existing);
    } else if c == "c" {
      cancelled := true;
    }
  }

  /** Lines `TTFont` through the `"skip_all"` filter, for one font. */
  method PlanFont(h: Host, weights: seq<(string, int)>, font: string, st: State, answers: seq<string>, norm: Ui.Normalization)
    returns (p: Plan)
    requires st.pos <= |answers|
    ensures p == PlanFor(h, weights, font, st, answers, norm)
    ensures p.pos <= |answers|
  {
    if h.probe(font) != Variable {
      return Plan([], st.mode, st.pos, false, false);
    }
    var fontsToCreate, existingFonts := ComputeTargets(h, weights, font, st.existing);
    if existingFonts != [] && st.mode != OverwriteAll && st.mode != SkipAll {
      p := Prompt(fontsToCreate, st.existing, answers, st.pos, norm);
      return;
    }
    if st.mode == SkipAll {
      fontsToCreate := Missing(fontsToCreate, st.existing);
    }
    p := Plan(fontsToCreate, st.mode, st.pos, false, false);
  }

  /**
   * The prompted branch of one font: the prompt, the `if`/`elif` chain, and the
   * `"skip_all"` filter that follows it.
   */
  method Prompt(ts: seq<Target>, existing: set<string>, answers: seq<string>, pos: nat, norm: Ui.Normalization)
    returns (p: Plan)
    requires pos <= |answers|
    ensures p == AfterPrompt(ts, existing, Unset, Ui.NextChoice(answers, pos, norm), |answers|)
    ensures p.pos <= |answers|
  {
    var choice, next := Ui.GetOverwriteChoice(answers, pos, norm);
    if choice.None? {
      return Plan([], Unset, next, true, false);
    }
    var fontsToCreate, overwriteMode, cancelled := ApplyAnswer(choice.value, ts, existing, Unset);
    if cancelled {
      return Plan([], overwriteMode, next, true, true);
    }
    if overwriteMode == SkipAll {
      fontsToCreate := Missing(fontsToCreate, existing);
    }
    p := Plan(fontsToCreate, overwriteMode, next, true, false);
  }

  /** `create_static_fonts`: the loop over the selected fonts, threading `overwrite_mode`. */
  method CreateStaticFonts(h: Host, weights: seq<(string, int)>, selected: seq<(int, string)>, existing0: set<string>,
                           answers: seq<string>, norm: Ui.Normalization)
    returns (st: State, cancelled: bool)
    ensures (st, cancelled) == Run(h, weights, selected, Initial(existing0), answers, norm)
  {
    var existing, overwriteMode, prompted, actions := existing0, Unset, [], [];
    var pos: nat := 0;
    for k := 0 to |selected|
      invariant pos <= |answers|
      invariant Run(h, weights, selected[k..], State(existing, overwriteMode, pos, prompted, actions), answers, norm) ==
        Run(h, weights, selected, Initial(existing0), answers, norm)
    {
      var (_, inputFont) := selected[k];
      var before := State(existing, overwriteMode, pos, prompted, actions);
      assert selected[k..][0] == selected[k] && selected[k..][1..] == selected[k + 1..];
      var p := PlanFont(h, weights, inputFont, before, answers, norm);
      overwriteMode, pos := p.mode, p.pos;
      if p.prompted {
        prompted := prompted + [inputFont];
      }
      if p.cancelled {
        return State(existing, overwriteMode, pos, prompted, actions), true;
      }
      if p.toCreate != [] {
        existing, actions := CreateInstances(h, inputFont, p.toCreate, existing, actions);
      }
    }
    assert selected[|selected|..] == [];
    return State(existing, overwriteMode, pos, prompted, actions), false;
  }

  // ===========================================================================
  // main

  /** `user_font.lower().endswith(".ttf")`. */
  predicate IsTtf(path: string)
  {
    EndsWith(Lower(path), ".ttf")
  }

  /** The test ignores case: `"Font.TTF"` and `"font.ttf"` pass, `"font.otf"` does not. */
  lemma TtfAnyCase()
    ensures IsTtf("Font.TTF") && IsTtf("font.ttf") && !IsTtf("font.otf")
  {
    assert Lower("Font.TTF") == "font.ttf";
    assert Lower("font.ttf") == "font.ttf";
    assert Lower("font.otf") == "font.otf";
  }

  /** The list comprehension: the paths that pass the filter, in their order. */
  function TtfOnly(paths: seq<string>): (r: seq<string>)
    ensures forall p :: p in r <==> p in paths && IsTtf(p)
    ensures forall p :: p in paths && IsTtf(p) ==> multiset(r)[p] == multiset(paths)[p]
    ensures forall p :: p in r ==> IsTtf(p)
  {
    if paths == [] then []
    else
      assert paths == [paths[0]] + paths[1..];
      (if IsTtf(paths[0]) then [paths[0]] else []) + TtfOnly(paths[1..])
  }

  /** `USER_VARIABLE_FONTS`: exactly the `.ttf` paths (any case), each as often as listed, ascending. */
  function UserVariableFonts(systemFonts: seq<string>): (r: seq<string>)
    ensures SortedStrings(r)
    ensures forall p :: p in r <==> p in systemFonts && IsTtf(p)
    ensures forall p :: IsTtf(p) ==> multiset(r)[p] == multiset(systemFonts)[p]
  {
    var kept := TtfOnly(systemFonts);
    var r := SortStrings(kept);
    assert forall p :: p in r <==> p in kept by {
      forall p ensures p in r <==> p in kept {
        assert p in r <==> p in multiset(r);
        assert p in kept <==> p in multiset(kept);
      }
    }
    assert forall p :: IsTtf(p) && p !in systemFonts ==> multiset(kept)[p] == 0;
    r
  }

  /** `main`: stops when no `.ttf` font is found or nothing is selected, and otherwise converts the selection. */
  method ConvertSystemFonts(systemFonts: seq<string>, h: Host, weights: seq<(string, int)>, existing: set<string>,
                            line: string, confirm: string, answers: seq<string>, norm: Ui.Normalization)
    returns (result: Option<(State, bool)>)
    ensures var fonts := UserVariableFonts(systemFonts);
      result == if fonts == [] then None
                else match Ui.Selection(fonts, line)
                     case None => None
                     case Some(chosen) =>
                       if chosen == [] || confirm != "" then None
                       else Some(Run(h, weights, chosen, Initial(existing), answers, norm))
  {
    var userVariableFonts := UserVariableFonts(systemFonts);
    if userVariableFonts == [] {
      return None;
    }
    var selectedFonts := Ui.SelectFonts(userVariableFonts, line, confirm);
    if selectedFonts.None? {
      return None;
    }
    var st, cancelled := CreateStaticFonts(h, weights, selectedFonts.value, existing, answers, norm);
    return Some((st, cancelled));
  }
}
