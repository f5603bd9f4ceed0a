/**
 * The stand-alone entry point `src/main.py`: its own `create_static_fonts`, with the
 * overwrite prompt written inline and the `"skip_all"` filter as an `elif`, and
 * `process_variable_fonts`, which numbers, parses, resolves and confirms like
 * `select_fonts` but without the empty-selection guard. Both are proved to behave
 * as the package's versions do.
 */
module MainScript {
  import opened Wrappers
  import opened FontHost
  import opened PyStr
  import Ui
  import Package

  /**
   * main.py's inline `while True` prompt: each accepted answer acts on
   * `fonts_to_create` and `overwrite_mode` at once, as the package's decision does.
   */
  method ChooseAction(fontsToCreate: seq<Package.Target>, existing: set<string>, answers: seq<string>, pos: nat, norm: Ui.Normalization)
    returns (toCreate: seq<Package.Target>, mode: Package.Mode, next: nat, cancelled: bool, endOfInput: bool)
    requires pos <= |answers|
    ensures endOfInput <==> Ui.NextChoice(answers, pos, norm).None?
    ensures endOfInput ==> next == |answers| && !cancelled
    ensures !endOfInput ==> next == Ui.NextChoice(answers, pos, norm).value.1
    ensures !endOfInput ==> (cancelled <==> Ui.NextChoice(answers, pos, norm).value.0 == "c")
    ensures !endOfInput && !cancelled ==>
      (toCreate, mode) == Package.Decide(Ui.NextChoice(answers, pos, norm).value.0, fontsToCreate, existing, Package.Unset)
  {
    // The inline loop reads and normalises lines exactly as `get_overwrite_choice`
    // does, until one matches a branch of the chain.
    var choice, n := Ui.GetOverwriteChoice(answers, pos, norm);
    if choice.None? {
      // `input` raised EOFError: the rest of this font is skipped by the handler.
      return [], Package.Unset, |answers|, false, true;
    }
    toCreate, mode, cancelled := ApplyChoice(choice.value, fontsToCreate, existing);
    return toCreate, mode, n, cancelled, false;
  }

  /** The `if`/`elif` chain inside main.py's prompt loop, for an answer one of its branches matches. */
  method ApplyChoice(choice: string, fontsToCreate: seq<Package.Target>, existing: set<string>)
    returns (toCreate: seq<Package.Target>, mode: Package.Mode, cancelled: bool)
    requires Ui.Accepted(choice)
    ensures cancelled <==> choice == "c"
    ensures !cancelled ==> (toCreate, mode) == Package.Decide(choice, fontsToCreate, existing, Package.Unset)
  {
    cancelled := false;
    if choice == "o" {
      toCreate, mode := fontsToCreate, Package.Unset;
    } else if choice == "s" {
      toCreate, mode := Package.Missing(fontsToCreate, existing), Package.Unset;
    } else if choice == "O" {
      toCreate, mode := fontsToCreate, Package.OverwriteAll;
    } else if choice == "S" {
      toCreate, mode := Package.Missing(fontsToCreate, existing), Package.SkipAll;
    } else {
      toCreate, mode, cancelled := [], Package.Unset, true;
    }
  }

  /**
   * One font's conflict resolution as main.py writes it. Its plan is the package's:
   * the `elif` filter only differs where the filter keeps everything, and the `'S'`
   * branch filters once where the package filters twice.
   */
  method PlanFont(h: Host, weights: seq<(string, int)>, font: string, st: Package.State, answers: seq<string>, norm: Ui.Normalization)
    returns (p: Package.Plan)
    requires st.pos <= |answers|
    ensures p == Package.PlanFor(h, weights, font, st, answers, norm)
    ensures p.pos <= |answers|
  {
    if h.probe(font) != Variable {
      return Package.Plan([], st.mode, st.pos, false, false);
    }
    var fontsToCreate, existingFonts := Package.ComputeTargets(h, weights, font, st.existing);
    if existingFonts != [] && st.mode != Package.OverwriteAll && st.mode != Package.SkipAll {
      var toCreate, mode, next, cancelled, endOfInput := ChooseAction(fontsToCreate, st.existing, answers, st.pos, norm);
      if endOfInput {
        return Package.Plan([], st.mode, next, true, false);
      }
      if cancelled {
        return Package.Plan([], st.mode, next, true, true);
      }
      Package.PlanAfterChoice(fontsToCreate, st.existing, Ui.NextChoice(answers, st.pos, norm).value.0, next, |answers|);
      return Package.Plan(toCreate, mode, next, true, false);
    } else if existingFonts != [] && st.mode == Package.SkipAll {
      fontsToCreate := Package.Missing(fontsToCreate, st.existing);
    } else if st.mode == Package.SkipAll {
      Package.MissingWithoutClash(fontsToCreate, st.existing);
    }
    p := Package.Plan(fontsToCreate, st.mode, st.pos, false, false);
  }

  /** main.py's `create_static_fonts`: the same run as the package's. */
  method CreateStaticFonts(h: Host, weights: seq<(string, int)>, selected: seq<(int, string)>, existing0: set<string>,
                           answers: seq<string>, norm: Ui.Normalization)
    returns (st: Package.State, cancelled: bool)
    ensures (st, cancelled) == Package.Run(h, weights, selected, Package.Initial(existing0), answers, norm)
  {
    var existing, overwriteMode, prompted, actions := existing0, Package.Unset, [], [];
    var pos: nat := 0;
    for k := 0 to |selected|
      invariant pos <= |answers|
      invariant Package.Run(h, weights, selected[k..], Package.State(existing, overwriteMode, pos, prompted, actions), answers, norm) ==
        Package.Run(h, weights, selected, Package.Initial(existing0), answers, norm)
    {
      var (_, inputFont) := selected[k];
      var before := Package.State(existing, overwriteMode, pos, prompted, actions);
      assert selected[k..][0] == selected[k] && selected[k..][1..] == selected[k + 1..];
      var p := PlanFont(h, weights, inputFont, before, answers, norm);
      overwriteMode, pos := p.mode, p.pos;
      if p.prompted {
        prompted := prompted + [inputFont];
      }
      if p.cancelled {
        return Package.State(existing, overwriteMode, pos, prompted, actions), true;
      }
      if p.toCreate != [] {
        existing, actions := Package.CreateInstances(h, inputFont, p.toCreate, existing, actions);
      }
    }
    assert selected[|selected|..] == [];
    return Package.State(existing, overwriteMode, pos, prompted, actions), false;
  }

  /**
   * `process_variable_fonts`: a line that does not parse ends it, as does a non-empty
   * confirmation; otherwise the chosen fonts are converted, including none at all.
   */
  method ProcessVariableFonts(fonts: seq<string>, line: string, confirm: string,
                              h: Host, weights: seq<(string, int)>, existing: set<string>,
                              answers: seq<string>, norm: Ui.Normalization)
    returns (result: Option<(Package.State, bool)>)
    ensures result == match Ui.Selection(fonts, line)
                      case None => None
                      case Some(chosen) =>
                        if confirm != "" then None
                        else Some(Package.Run(h, weights, chosen, Package.Initial(existing), answers, norm))
    ensures Ui.Selection(fonts, line) == Some([]) && confirm == "" ==> result == Some((Package.Initial(existing), false))
  {
    var numbered, counter := Ui.NumberFonts(fonts);
    var normalized := Ui.ParseSelectionLine(line);
    if normalized.None? {
      return None;
    }
    var selected := Ui.Resolve(normalized.value, numbered);
    Ui.ResolveIsChosen(normalized.value, numbered, fonts);
    assert Ui.SetOf(normalized.value) == Ui.ParseSelection(line).value;
    if confirm != "" {
      return None;
    }
    var st, cancelled := CreateStaticFonts(h, weights, selected, existing, answers, norm);
    return Some((st, cancelled));
  }
}
