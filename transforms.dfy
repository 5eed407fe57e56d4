/**
 * The pipeline orchestrator: `render` runs the extractors and then the
 * transforms, in registration order, over the shared document and context,
 * and marks the document as prerendered; `distillify` runs the publishing
 * transforms; `usesTemplateV2` probes the document's scripts.
 *
 * The stages themselves are not part of this model. Each registered name
 * stands for an opaque stage: a function from the current document and
 * context (and the `verbose` flag it is handed) to either the state it
 * leaves behind or the state it had reached when it threw.
 */
module Transforms {
  import opened Wrappers
  import opened JsString
  import opened Page

  /** The document and the shared context, as a stage sees them. */
  datatype Snapshot = Snapshot(dom: DomState, data: DataState)

  /** A stage either completes or throws; a throw keeps whatever it had already changed. */
  datatype StageResult = Completed(after: Snapshot) | Threw(partial: Snapshot, error: string)

  type Stage = (Snapshot, bool) -> StageResult

  /** The registry order of the three maps. */
  const Extractors: seq<string> := ["ExtractFrontmatter", "ExtractBibliography", "ExtractCitations"]
  const TransformStages: seq<string> := ["HTML", "makeStyleTag", "Polyfills", "OptionalComponents", "TOC",
                                         "Byline", "Mathematics", "Meta", "Typeset", "Bibliography"]
  const DistillTransforms: seq<string> := ["DistillHeader", "DistillAppendix", "DistillFooter"]

  const PrerenderedAttribute: string := "distill-prerendered"

  function Snap(dom: Dom, data: Data): Snapshot
    reads dom, data
  {
    Snapshot(dom.State(), data.State())
  }

  /** The snapshot with `distill-prerendered=""` set on the body. */
  function MarkPrerendered(s: Snapshot): Snapshot {
    s.(dom := s.dom.(bodyAttributes := s.dom.bodyAttributes[PrerenderedAttribute := ""]))
  }

  // ---------------------------------------------------------------------------
  // Running a sequence of stages
  // ---------------------------------------------------------------------------

  /** Where a sequence of stages ends: the state, the stages entered, and the error, if one threw. */
  datatype Run = Run(state: Snapshot, ran: seq<string>, error: Option<string>)

  /**
   * Runs the named stages in order, stopping at the first that throws.
   * The stages entered are a prefix of `names`: all of them when none threw,
   * and up to and including the thrower otherwise.
   */
  function RunStages(names: seq<string>, impl: string -> Stage, s: Snapshot, verbose: bool): (r: Run)
    ensures r.ran <= names
    ensures r.error.None? ==> r.ran == names
    ensures r.error.Some? ==> |r.ran| >= 1
  {
    if names == [] then Run(s, [], None)
    else
      match impl(names[0])(s, verbose)
      case Threw(partial, e) => Run(partial, [names[0]], Some(e))
      case Completed(after) =>
        var rest := RunStages(names[1..], impl, after, verbose);
        Run(rest.state, [names[0]] + rest.ran, rest.error)
  }

  /** The diagnostic lines for the stages entered, one per stage, each announced before it runs. */
  function Announce(prefix: string, names: seq<string>): seq<string> {
    seq(|names|, i requires 0 <= i < |names| => prefix + names[i])
  }

  /** Running `a + b` is running `a` and, if that completed, `b` from where `a` left off. */
  lemma {:induction false} RunStagesAppend(a: seq<string>, b: seq<string>, impl: string -> Stage, s: Snapshot, verbose: bool)
    ensures var ra := RunStages(a, impl, s, verbose);
      RunStages(a + b, impl, s, verbose)
      == if ra.error.Some? then ra
         else var rb := RunStages(b, impl, ra.state, verbose); Run(rb.state, ra.ran + rb.ran, rb.error)
  {
    if a == [] {
      assert a + b == b;
    } else {
      assert (a + b)[0] == a[0] && (a + b)[1..] == a[1..] + b;
      match impl(a[0])(s, verbose)
      case Threw(_, _) =>
      case Completed(after) =>
        RunStagesAppend(a[1..], b, impl, after, verbose);
    }
  }

  /** One more stage after a prefix that completed. */
  lemma RunStagesStep(names: seq<string>, impl: string -> Stage, s: Snapshot, verbose: bool, i: nat)
    requires i < |names| && RunStages(names[..i], impl, s, verbose).error.None?
    ensures var before := RunStages(names[..i], impl, s, verbose);
      RunStages(names[..i + 1], impl, s, verbose)
      == match impl(names[i])(before.state, verbose)
         case Threw(partial, e) => Run(partial, names[..i + 1], Some(e))
         case Completed(after) => Run(after, names[..i + 1], None)
  {
    assert names[..i + 1] == names[..i] + [names[i]];
    RunStagesAppend(names[..i], [names[i]], impl, s, verbose);
  }

  /**
   * The run of `names` stops at its thrower: when it ends in an error, every
   * stage before the last one entered completed, the last one threw exactly
   * that error from the state they left, its partial state is the final
   * state, and no later stage ran.
   */
  ghost predicate StopsAtThrower(names: seq<string>, impl: string -> Stage, s: Snapshot, verbose: bool) {
    var r := RunStages(names, impl, s, verbose);
    r.error.Some? ==>
      var j := |r.ran| - 1;
      && r.ran == names[..j + 1]
      && RunStages(names[..j], impl, s, verbose).error.None?
      && impl(names[j])(RunStages(names[..j], impl, s, verbose).state, verbose) == Threw(r.state, r.error.value)
  }

  /** Fail-fast, for every sequence of stages. */
  lemma {:induction false} FailFast(names: seq<string>, impl: string -> Stage, s: Snapshot, verbose: bool)
    ensures StopsAtThrower(names, impl, s, verbose)
  {
    if names != [] {
      match impl(names[0])(s, verbose)
      case Threw(_, _) =>
        FailFastHere(names, impl, s, verbose);
      case Completed(after) =>
        FailFast(names[1..], impl, after, verbose);
        FailFastLater(names, impl, s, verbose);
    }
  }

  lemma FailFastHere(names: seq<string>, impl: string -> Stage, s: Snapshot, verbose: bool)
    requires names != [] && impl(names[0])(s, verbose).Threw?
    ensures StopsAtThrower(names, impl, s, verbose)
  {
    assert names[..0] == [] && names[..1] == [names[0]];
  }

  lemma FailFastLater(names: seq<string>, impl: string -> Stage, s: Snapshot, verbose: bool)
    requires names != [] && impl(names[0])(s, verbose).Completed?
    requires StopsAtThrower(names[1..], impl, impl(names[0])(s, verbose).after, verbose)
    ensures StopsAtThrower(names, impl, s, verbose)
  {
    var after := impl(names[0])(s, verbose).after;
    var rest := RunStages(names[1..], impl, after, verbose);
    var r := RunStages(names, impl, s, verbose);
    assert r == Run(rest.state, [names[0]] + rest.ran, rest.error);
    if rest.error.Some? {
      var jr := |rest.ran| - 1;
      var before := RunStages(names[1..][..jr], impl, after, verbose);
      assert rest.ran == names[1..][..jr + 1];
      assert before.error.None? && impl(names[1..][jr])(before.state, verbose) == Threw(rest.state, rest.error.value);
      ShiftPrefix(names, impl, s, verbose, jr);
      assert names[jr + 1] == names[1..][jr];
      assert r.ran == names[..jr + 2];
    }
  }

  /** The first `j + 1` stages, when the first completes, are that stage and then the next `j`. */
  lemma ShiftPrefix(names: seq<string>, impl: string -> Stage, s: Snapshot, verbose: bool, j: nat)
    requires j < |names| && impl(names[0])(s, verbose).Completed?
    ensures var r := RunStages(names[1..][..j], impl, impl(names[0])(s, verbose).after, verbose);
      RunStages(names[..j + 1], impl, s, verbose) == Run(r.state, [names[0]] + r.ran, r.error)
  {
    var prefix := names[..j + 1];
    assert prefix[0] == names[0] && prefix[1..] == names[1..][..j];
  }

  // ---------------------------------------------------------------------------
  // The verbose flag
  // ---------------------------------------------------------------------------

  /** The named stages behave the same whichever `verbose` they are handed. */
  ghost predicate IgnoresVerbose(impl: string -> Stage, names: seq<string>) {
    forall n, s :: n in names ==> impl(n)(s, true) == impl(n)(s, false)
  }

  /** For stages that ignore it, `verbose` changes neither what runs nor where it ends. */
  lemma {:induction false} VerboseIrrelevant(names: seq<string>, impl: string -> Stage, s: Snapshot)
    requires IgnoresVerbose(impl, names)
    ensures RunStages(names, impl, s, true) == RunStages(names, impl, s, false)
  {
    if names != [] {
      assert impl(names[0])(s, true) == impl(names[0])(s, false);
      match impl(names[0])(s, true)
      case Threw(_, _) =>
      case Completed(after) =>
        assert IgnoresVerbose(impl, names[1..]);
        VerboseIrrelevant(names[1..], impl, after);
    }
  }

  /** The named stages never change the body's attributes, whether they complete or throw. */
  ghost predicate KeepsBody(impl: string -> Stage, names: seq<string>) {
    forall n, s, v :: n in names ==>
      match impl(n)(s, v)
      case Completed(after) => after.dom.bodyAttributes == s.dom.bodyAttributes
      case Threw(partial, _) => partial.dom.bodyAttributes == s.dom.bodyAttributes
  }

  lemma {:induction false} KeepsBodyRun(names: seq<string>, impl: string -> Stage, s: Snapshot, verbose: bool)
    requires KeepsBody(impl, names)
    ensures RunStages(names, impl, s, verbose).state.dom.bodyAttributes == s.dom.bodyAttributes
  {
    if names != [] {
      assert names[0] in names;
      match impl(names[0])(s, verbose)
      case Threw(_, _) =>
      case Completed(after) =>
        assert KeepsBody(impl, names[1..]);
        KeepsBodyRun(names[1..], impl, after, verbose);
    }
  }

  // ---------------------------------------------------------------------------
  // render and distillify
  // ---------------------------------------------------------------------------

  /** Where `render` leaves the document and context, whether it threw, and what it logged. */
  datatype Outcome = Outcome(state: Snapshot, error: Option<string>, log: seq<string>)

  function PhaseLog(verbose: bool, prefix: string, ran: seq<string>): seq<string> {
    if verbose then Announce(prefix, ran) else []
  }

  /** The specification `Render` meets: extractors, then transforms, then the prerendered marker. */
  function RenderSpec(s: Snapshot, impl: string -> Stage, verbose: bool): Outcome {
    var ex := RunStages(Extractors, impl, s, verbose);
    var exLog := PhaseLog(verbose, "Running extractor: ", ex.ran);
    if ex.error.Some? then Outcome(ex.state, ex.error, exLog)
    else
      var tr := RunStages(TransformStages, impl, ex.state, verbose);
      var log := exLog + PhaseLog(verbose, "Running transform: ", tr.ran);
      if tr.error.Some? then Outcome(tr.state, tr.error, log)
      else Outcome(MarkPrerendered(tr.state), None, log)
  }

  /** The specification `Distillify` meets: the three publishing transforms and no marker. */
  function DistillifySpec(s: Snapshot, impl: string -> Stage, verbose: bool): Outcome {
    var r := RunStages(DistillTransforms, impl, s, verbose);
    Outcome(r.state, r.error, PhaseLog(verbose, "Running distillify:  ", r.ran))
  }

  lemma AnnounceStep(verbose: bool, prefix: string, names: seq<string>, i: nat)
    requires i < |names|
    ensures PhaseLog(verbose, prefix, names[..i + 1])
            == PhaseLog(verbose, prefix, names[..i]) + (if verbose then [prefix + names[i]] else [])
  {
  }

  /** A prefix that threw is the whole run. */
  lemma StoppedPrefix(names: seq<string>, impl: string -> Stage, s: Snapshot, verbose: bool, i: nat)
    requires i <= |names| && RunStages(names[..i], impl, s, verbose).error.Some?
    ensures RunStages(names, impl, s, verbose) == RunStages(names[..i], impl, s, verbose)
  {
    RunStagesAppend(names[..i], names[i..], impl, s, verbose);
    assert names[..i] + names[i..] == names;
  }

  /** One `for … of map.entries()` loop: announce, then call, each stage in turn. */
  method RunPhase(dom: Dom, data: Data, names: seq<string>, impl: string -> Stage, verbose: bool, prefix: string)
    returns (error: Option<string>, log: seq<string>)
    modifies dom, data
    ensures var r := RunStages(names, impl, old(Snap(dom, data)), verbose);
      Snap(dom, data) == r.state && error == r.error && log == PhaseLog(verbose, prefix, r.ran)
  {
    ghost var s0 := Snap(dom, data);
    log := [];
    var i := 0;
    assert names[..0] == [];
    while i < |names|
      invariant i <= |names|
      invariant RunStages(names[..i], impl, s0, verbose) == Run(Snap(dom, data), names[..i], None)
      invariant log == PhaseLog(verbose, prefix, names[..i])
    {
      if verbose {
        log := log + [prefix + names[i]];
      }
      AnnounceStep(verbose, prefix, names, i);
      RunStagesStep(names, impl, s0, verbose, i);
      var result := impl(names[i])(Snap(dom, data), verbose);
      match result
      case Threw(partial, e) =>
        dom.Load(partial.dom);
        data.Load(partial.data);
        StoppedPrefix(names, impl, s0, verbose, i + 1);
        return Some(e), log;
      case Completed(after) =>
        dom.Load(after.dom);
        data.Load(after.data);
        i := i + 1;
    }
    assert names[..i] == names;
    error := None;
  }

  /**
   * `render(dom, data, verbose)`: every extractor, then every transform, in
   * registration order; then `distill-prerendered` on the body. A stage that
   * throws ends the run where it stands, without the marker.
   */
  method Render(dom: Dom, data: Data, impl: string -> Stage, verbose: bool) returns (error: Option<string>, log: seq<string>)
    modifies dom, data
    ensures var o := RenderSpec(old(Snap(dom, data)), impl, verbose);
      Snap(dom, data) == o.state && error == o.error && log == o.log
  {
    var exLog, trLog;
    error, exLog := RunPhase(dom, data, Extractors, impl, verbose, "Running extractor: ");
    if error.Some? {
      return error, exLog;
    }
    error, trLog := RunPhase(dom, data, TransformStages, impl, verbose, "Running transform: ");
    log := exLog + trLog;
    if error.Some? {
      return;
    }
    dom.SetBodyAttribute(PrerenderedAttribute, "");
  }

  /** `distillify(dom, data, verbose)`: the publishing transforms in order; no marker. */
  method Distillify(dom: Dom, data: Data, impl: string -> Stage, verbose: bool) returns (error: Option<string>, log: seq<string>)
    modifies dom, data
    ensures var o := DistillifySpec(old(Snap(dom, data)), impl, verbose);
      Snap(dom, data) == o.state && error == o.error && log == o.log
  {
    error, log := RunPhase(dom, data, DistillTransforms, impl, verbose, "Running distillify:  ");
  }

  // ---------------------------------------------------------------------------
  // Properties of render and distillify
  // ---------------------------------------------------------------------------

  /**
   * `render` is one run over the extractors followed by the transforms: the
   * stages entered form a prefix of that list (so no transform starts before
   * every extractor has completed), and the marker is added exactly when the
   * whole list completed.
   */
  lemma RenderIsOneRun(s: Snapshot, impl: string -> Stage, verbose: bool)
    ensures var r := RunStages(Extractors + TransformStages, impl, s, verbose); var o := RenderSpec(s, impl, verbose);
      && o.error == r.error
      && o.state == (if r.error.None? then MarkPrerendered(r.state) else r.state)
      && (verbose ==> |o.log| == |r.ran|)
      && (!verbose ==> o.log == [])
  {
    RunStagesAppend(Extractors, TransformStages, impl, s, verbose);
  }

  /**
   * When `render` throws, the state is exactly what the throwing stage left:
   * every stage before it completed, nothing later ran, nothing is rolled
   * back and no marker is added.
   */
  lemma RenderFailFast(s: Snapshot, impl: string -> Stage, verbose: bool)
    ensures var all := Extractors + TransformStages; var o := RenderSpec(s, impl, verbose);
      o.error.Some? ==>
        exists j :: 0 <= j < |all| &&
          var before := RunStages(all[..j], impl, s, verbose);
          && before.error.None?
          && impl(all[j])(before.state, verbose) == Threw(o.state, o.error.value)
  {
    var all := Extractors + TransformStages;
    RenderIsOneRun(s, impl, verbose);
    FailFast(all, impl, s, verbose);
    var r := RunStages(all, impl, s, verbose);
    if r.error.Some? {
      var j := |r.ran| - 1;
      assert 0 <= j < |all|;
    }
  }

  /** After `render` completes, the body carries `distill-prerendered=""`. */
  lemma RenderMarks(s: Snapshot, impl: string -> Stage, verbose: bool)
    ensures var o := RenderSpec(s, impl, verbose);
      o.error.None? ==> PrerenderedAttribute in o.state.dom.bodyAttributes && o.state.dom.bodyAttributes[PrerenderedAttribute] == ""
  {
  }

  /** `distillify` adds no marker: over stages that leave the body alone, the body's attributes are unchanged. */
  lemma DistillifyLeavesBody(s: Snapshot, impl: string -> Stage, verbose: bool)
    requires KeepsBody(impl, DistillTransforms)
    ensures DistillifySpec(s, impl, verbose).state.dom.bodyAttributes == s.dom.bodyAttributes
  {
    KeepsBodyRun(DistillTransforms, impl, s, verbose);
  }

  /**
   * `verbose` only adds the log: over stages that ignore it, `render` and
   * `distillify` end in the same state with the same error either way, and
   * log nothing when it is off.
   */
  lemma VerboseOnlyLogs(s: Snapshot, impl: string -> Stage)
    requires IgnoresVerbose(impl, Extractors + TransformStages + DistillTransforms)
    ensures RenderSpec(s, impl, true).state == RenderSpec(s, impl, false).state
    ensures RenderSpec(s, impl, true).error == RenderSpec(s, impl, false).error
    ensures DistillifySpec(s, impl, true).state == DistillifySpec(s, impl, false).state
    ensures DistillifySpec(s, impl, true).error == DistillifySpec(s, impl, false).error
    ensures RenderSpec(s, impl, false).log == [] && DistillifySpec(s, impl, false).log == []
  {
    var all := Extractors + TransformStages;
    assert IgnoresVerbose(impl, all);
    assert IgnoresVerbose(impl, DistillTransforms);
    VerboseIrrelevant(all, impl, s);
    VerboseIrrelevant(DistillTransforms, impl, s);
    RenderIsOneRun(s, impl, true);
    RenderIsOneRun(s, impl, false);
  }

  // ---------------------------------------------------------------------------
  // usesTemplateV2
  // ---------------------------------------------------------------------------

  const V1Script: string := "template.v1.js"
  const V2Script: string := "template.v2.js"
  const TemplatePrefix: string := "template."

  /** The two errors the probe throws. */
  datatype ProbeError = UnknownVersion | NoTemplate

  function Message(e: ProbeError): string {
    match e
    case UnknownVersion => "Uses distill template, but unknown version?!"
    case NoTemplate => "Does not seem to use Distill template at all."
  }

  /** How the probe reads one script `src`; `template.v1.js` is tested first. */
  datatype ScriptKind = V1 | V2 | OtherTemplate | NotTemplate

  function Kind(src: string): ScriptKind {
    if Contains(src, V1Script) then V1
    else if Contains(src, V2Script) then V2
    else if Contains(src, TemplatePrefix) then OtherTemplate
    else NotTemplate
  }

  /** A script names the template at all exactly when its `src` contains "template.". */
  lemma KindTemplate(src: string)
    ensures Kind(src) != NotTemplate <==> Contains(src, TemplatePrefix)
  {
    if Contains(src, V1Script) {
      ContainsPrefix(src, V1Script, TemplatePrefix);
    } else if Contains(src, V2Script) {
      ContainsPrefix(src, V2Script, TemplatePrefix);
    }
  }

  /** A `src` that names both versions counts as v1, whatever their order. */
  lemma KindBoth(pre: string, mid: string, post: string)
    ensures Kind(pre + V2Script + mid + V1Script + post) == V1
    ensures Kind(pre + V1Script + mid + V2Script + post) == V1
  {
    var a := pre + V2Script + mid + V1Script + post;
    assert a[|pre + V2Script + mid|..|pre + V2Script + mid| + |V1Script|] == V1Script;
    ContainsAt(a, V1Script, |pre + V2Script + mid|);
    var b := pre + V1Script + mid + V2Script + post;
    assert b[|pre|..|pre| + |V1Script|] == V1Script;
    ContainsAt(b, V1Script, |pre|);
  }

  predicate NamesVersion(src: string) {
    Kind(src) == V1 || Kind(src) == V2
  }

  /** The version named by the last v1 or v2 script, if any: `true` for v2. */
  function LastVersion(srcs: seq<string>): (r: Option<bool>)
    ensures r.None? <==> forall i :: 0 <= i < |srcs| ==> !NamesVersion(srcs[i])
    ensures r.Some? ==> exists i :: 0 <= i < |srcs| && NamesVersion(srcs[i]) && r.value == (Kind(srcs[i]) == V2)
                         && forall j :: i < j < |srcs| ==> !NamesVersion(srcs[j])
  {
    if srcs == [] then None
    else
      var last := srcs[|srcs| - 1];
      var init := srcs[..|srcs| - 1];
      var r := match Kind(last)
        case V1 => Some(false)
        case V2 => Some(true)
        case _ => LastVersion(init);
      assert forall i :: 0 <= i < |init| ==> init[i] == srcs[i];
      r
  }

  /**
   * `usesTemplateV2(dom)`: scans the script `src`s in document order. It
   * throws `UnknownVersion` at the first that names the template but neither
   * version, throws `NoTemplate` when none names the template at all, and
   * otherwise answers whether the last script naming a version named v2.
   */
  method UsesTemplateV2(srcs: seq<string>) returns (r: Result<bool, ProbeError>)
    ensures r == Failure(UnknownVersion) <==> exists i :: 0 <= i < |srcs| && Kind(srcs[i]) == OtherTemplate
    ensures r == Failure(NoTemplate) <==> forall i :: 0 <= i < |srcs| ==> !Contains(srcs[i], TemplatePrefix)
    ensures r.Success? ==> LastVersion(srcs) == Some(r.value)
  {
    var usesV2: Option<bool> := None;
    var i := 0;
    while i < |srcs|
      invariant i <= |srcs|
      invariant forall j :: 0 <= j < i ==> Kind(srcs[j]) != OtherTemplate
      invariant usesV2 == LastVersion(srcs[..i])
    {
      var src := srcs[i];
      assert srcs[..i + 1][..i] == srcs[..i];
      if Contains(src, V1Script) {
        usesV2 := Some(false);
      } else if Contains(src, V2Script) {
        usesV2 := Some(true);
      } else if Contains(src, TemplatePrefix) {
        KindTemplate(src);
        return Failure(UnknownVersion);
      }
      i := i + 1;
    }
    assert srcs[..i] == srcs;
    forall j | 0 <= j < |srcs| ensures Kind(srcs[j]) != NotTemplate <==> Contains(srcs[j], TemplatePrefix) {
      KindTemplate(srcs[j]);
    }
    if usesV2.None? {
      return Failure(NoTemplate);
    }
    return Success(usesV2.value);
  }
}
