/** The system check on portable keys: a recursive walk over the models linked to entities,
    which reports each faulty model once. */
module PortableKeys {
  import opened Options

  type Model = nat

  datatype Field = Field(isForeignKeyOrManyToMany: bool, viewable: bool, enumerable: bool, related: Model)

  datatype Info = Info(
    isEntity: bool,
    isFake: bool,
    fields: seq<Field>,
    hasPortableKey: bool,
    managerGetsByKey: bool,
    managerGetsByKeys: bool)

  datatype Fault = NoPortableKey | NoGetByPortableKey | NoGetByPortableKeys

  datatype Error = Error(model: Model, fault: Fault)

  function FaultOf(info: Info): Option<Fault> {
    if !info.hasPortableKey then Some(NoPortableKey)
    else if !info.managerGetsByKey then Some(NoGetByPortableKey)
    else if !info.managerGetsByKeys then Some(NoGetByPortableKeys)
    else None
  }

  predicate Examined(info: Info) {
    info.isEntity && !info.isFake
  }

  predicate Followed(field: Field) {
    field.isForeignKeyOrManyToMany && field.viewable && field.enumerable
  }

  predicate Warned(errors: seq<Error>, m: Model) {
    exists i :: 0 <= i < |errors| && errors[i].model == m
  }

  // ------------------------------------------------------------ the walk

  /** The models of the project, the ones among them that are installed, and the depth down to
      which models that are not installed themselves are walked through. */
  datatype Project = Project(info: Model -> Info, installed: seq<Model>, maxDepth: nat) {
    function Fields(m: Model): seq<Field> {
      info(m).fields
    }

    predicate Sound(m: Model) {
      FaultOf(info(m)).None?
    }

    function WithFault(errors: seq<Error>, m: Model): seq<Error> {
      if Sound(m) then errors else errors + [Error(m, FaultOf(info(m)).value)]
    }

    /** The errors after `model` and what is below it. */
    function Walk(errors: seq<Error>, model: Model, depth: nat): seq<Error>
      requires depth <= maxDepth
      decreases maxDepth - depth, 1, 0
    {
      if Examined(info(model)) then WalkFields(errors, model, depth, |Fields(model)|) else errors
    }

    /** The errors after the first `n` fields of `model`. */
    function WalkFields(errors: seq<Error>, model: Model, depth: nat, n: nat): seq<Error>
      requires depth <= maxDepth && n <= |Fields(model)|
      decreases maxDepth - depth, 0, n
    {
      if n == 0 then
        errors
      else
        WalkField(WalkFields(errors, model, depth, n - 1), Fields(model)[n - 1], depth)
    }

    function WalkField(errors: seq<Error>, field: Field, depth: nat): seq<Error>
      requires depth <= maxDepth
      decreases maxDepth - depth, 0, 0
    {
      if !Followed(field) || Warned(errors, field.related) then
        errors
      else if depth < maxDepth then
        Walk(WithFault(errors, field.related), field.related, depth + 1)
      else
        WithFault(errors, field.related)
    }

    /** The errors after the first `n` installed models. */
    function Report(n: nat): seq<Error>
      requires n <= |installed|
    {
      if n == 0 then [] else Walk(Report(n - 1), installed[n - 1], 0)
    }
  }

  lemma WarnedOneMore(errors: seq<Error>, e: Error)
    ensures forall m :: Warned(errors + [e], m) <==> Warned(errors, m) || m == e.model
  {
    var more := errors + [e];
    assert more[|errors|] == e;
    forall m | Warned(errors, m)
      ensures Warned(more, m)
    {
      var i :| 0 <= i < |errors| && errors[i].model == m;
      assert more[i] == errors[i];
    }
  }

  // ------------------------------------------------------------ the loops

  class Checker {
    const project: Project
    var errors: seq<Error>
    var warnedModels: set<Model>

    constructor (project: Project)
      ensures this.project == project && Valid()
      ensures errors == []
    {
      this.project := project;
      errors, warnedModels := [], {};
    }

    ghost predicate Valid()
      reads this
    {
      forall m :: m in warnedModels <==> Warned(errors, m)
    }

    method Warn(model: Model, fault: Fault)
      requires Valid()
      modifies this`errors, this`warnedModels
      ensures Valid() && errors == old(errors) + [Error(model, fault)]
    {
      WarnedOneMore(errors, Error(model, fault));
      errors := errors + [Error(model, fault)];
      warnedModels := warnedModels + {model};
    }

    /** _check_model() */
    method CheckModel(model: Model, depth: nat)
      requires Valid() && depth <= project.maxDepth
      modifies this`errors, this`warnedModels
      ensures Valid() && errors == project.Walk(old(errors), model, depth)
      decreases project.maxDepth - depth
    {
      var info := project.info(model);
      if !info.isEntity || info.isFake {
        return;
      }
      for n := 0 to |info.fields|
        invariant Valid() && errors == project.WalkFields(old(errors), model, depth, n)
      {
        var field := info.fields[n];
        if !field.isForeignKeyOrManyToMany || !field.viewable || !field.enumerable {
          continue;
        }
        var related := field.related;
        if related in warnedModels {
          continue;
        }
        if !project.info(related).hasPortableKey {
          Warn(related, NoPortableKey);
        } else if !project.info(related).managerGetsByKey {
          Warn(related, NoGetByPortableKey);
        } else if !project.info(related).managerGetsByKeys {
          Warn(related, NoGetByPortableKeys);
        }
        if depth < project.maxDepth {
          CheckModel(related, depth + 1);
        }
      }
    }

    /** check_portable_keys() */
    method CheckPortableKeys()
      requires Valid() && errors == []
      modifies this`errors, this`warnedModels
      ensures errors == project.Report(|project.installed|)
    {
      for n := 0 to |project.installed|
        invariant Valid() && errors == project.Report(n)
      {
        CheckModel(project.installed[n], 0);
      }
    }
  }

  // ------------------------------------------------------------ what may be reported

  ghost predicate Links(p: Project, m: Model, related: Model) {
    Examined(p.info(m)) && exists f :: f in p.Fields(m) && Followed(f) && f.related == related
  }

  /** At most `d` links lead from an installed model to `m`. */
  ghost predicate Near(p: Project, m: Model, d: nat)
    decreases d
  {
    if d == 0 then m in p.installed else Near(p, m, d - 1) || exists x :: Near(p, x, d - 1) && Links(p, x, m)
  }

  /** `m` is faulty and linked to by a model that the walk may reach. */
  ghost predicate MayBeReported(p: Project, m: Model) {
    !p.Sound(m) && exists x :: Near(p, x, p.maxDepth) && Links(p, x, m)
  }

  ghost predicate NoDuplicate(errors: seq<Error>) {
    forall i, j :: 0 <= i < j < |errors| ==> errors[i].model != errors[j].model
  }

  /** Each error is on another model, which may be reported, and tells its fault. */
  ghost predicate Right(p: Project, errors: seq<Error>) {
    && NoDuplicate(errors)
    && forall e :: e in errors ==> MayBeReported(p, e.model) && FaultOf(p.info(e.model)) == Some(e.fault)
  }

  lemma {:induction false} NearGrows(p: Project, m: Model, d: nat, d': nat)
    requires d <= d' && Near(p, m, d)
    ensures Near(p, m, d')
  {
    if d < d' {
      NearGrows(p, m, d, d' - 1);
    }
  }

  lemma RightWithFault(p: Project, errors: seq<Error>, m: Model)
    requires Right(p, errors) && !Warned(errors, m)
    requires !p.Sound(m) ==> MayBeReported(p, m)
    ensures Right(p, p.WithFault(errors, m))
  {
  }

  lemma {:induction false} WalkIsRight(p: Project, errors: seq<Error>, m: Model, depth: nat)
    requires depth <= p.maxDepth && Near(p, m, depth) && Right(p, errors)
    ensures Right(p, p.Walk(errors, m, depth))
    decreases p.maxDepth - depth, 1, 0
  {
    if Examined(p.info(m)) {
      WalkFieldsIsRight(p, errors, m, depth, |p.Fields(m)|);
    }
  }

  lemma {:induction false} WalkFieldsIsRight(p: Project, errors: seq<Error>, m: Model, depth: nat, n: nat)
    requires depth <= p.maxDepth && Near(p, m, depth) && Right(p, errors)
    requires n <= |p.Fields(m)| && Examined(p.info(m))
    ensures Right(p, p.WalkFields(errors, m, depth, n))
    decreases p.maxDepth - depth, 0, n
  {
    if n > 0 {
      var before, f := p.WalkFields(errors, m, depth, n - 1), p.Fields(m)[n - 1];
      WalkFieldsIsRight(p, errors, m, depth, n - 1);
      if Followed(f) && !Warned(before, f.related) {
        NearGrows(p, m, depth, p.maxDepth);
        assert f in p.Fields(m) && Links(p, m, f.related);
        RightWithFault(p, before, f.related);
        if depth < p.maxDepth {
          assert Near(p, f.related, depth + 1);
          WalkIsRight(p, p.WithFault(before, f.related), f.related, depth + 1);
        }
      }
    }
  }

  // ------------------------------------------------------------ what must be reported

  /** At most `n` links lead from `m` to `x`, through sound models. */
  ghost predicate Below(p: Project, x: Model, m: Model, n: nat)
    decreases n
  {
    x == m || (n > 0 && exists y :: Links(p, m, y) && p.Sound(y) && Below(p, x, y, n - 1))
  }

  /** `m` is faulty and linked to by a model that the walk reaches through sound models. */
  ghost predicate MustBeReported(p: Project, m: Model) {
    !p.Sound(m) && exists r, x :: r in p.installed && Below(p, x, r, p.maxDepth) && Links(p, x, m)
  }

  lemma WarnedGrows(errors: seq<Error>, more: seq<Error>, m: Model)
    requires errors <= more && Warned(errors, m)
    ensures Warned(more, m)
  {
    var i :| 0 <= i < |errors| && errors[i].model == m;
    assert more[i] == errors[i];
  }

  lemma {:induction false} WalkGrows(p: Project, errors: seq<Error>, m: Model, depth: nat)
    requires depth <= p.maxDepth
    ensures errors <= p.Walk(errors, m, depth)
    decreases p.maxDepth - depth, 1, 0
  {
    if Examined(p.info(m)) {
      WalkFieldsGrows(p, errors, m, depth, |p.Fields(m)|);
    }
  }

  lemma {:induction false} WalkFieldsGrows(p: Project, errors: seq<Error>, m: Model, depth: nat, n: nat)
    requires depth <= p.maxDepth && n <= |p.Fields(m)|
    ensures errors <= p.WalkFields(errors, m, depth, n)
    decreases p.maxDepth - depth, 0, n
  {
    if n > 0 {
      WalkFieldsGrows(p, errors, m, depth, n - 1);
      WalkFieldGrows(p, p.WalkFields(errors, m, depth, n - 1), p.Fields(m)[n - 1], depth);
    }
  }

  lemma {:induction false} WalkFieldGrows(p: Project, errors: seq<Error>, f: Field, depth: nat)
    requires depth <= p.maxDepth
    ensures errors <= p.WalkField(errors, f, depth)
    ensures Followed(f) && !p.Sound(f.related) ==> Warned(p.WalkField(errors, f, depth), f.related)
    decreases p.maxDepth - depth, 0, 0
  {
    if Followed(f) && !Warned(errors, f.related) {
      var more := p.WithFault(errors, f.related);
      assert !p.Sound(f.related) ==> more[|errors|].model == f.related;
      if depth < p.maxDepth {
        WalkGrows(p, more, f.related, depth + 1);
        if !p.Sound(f.related) {
          WarnedGrows(more, p.WalkField(errors, f, depth), f.related);
        }
      }
    }
  }

  /** After a walk, all that is linked to from below the model, through sound models, is warned. */
  lemma {:induction false} WalkCovers(p: Project, errors: seq<Error>, m: Model, depth: nat, x: Model, to: Model)
    requires depth <= p.maxDepth && Right(p, errors) && Near(p, m, depth)
    requires Below(p, x, m, p.maxDepth - depth) && Links(p, x, to) && !p.Sound(to)
    ensures Warned(p.Walk(errors, m, depth), to)
    decreases p.maxDepth - depth
  {
    if x == m {
      var f :| f in p.Fields(m) && Followed(f) && f.related == to;
      var n :| 0 <= n < |p.Fields(m)| && p.Fields(m)[n] == f;
      WalkFieldGrows(p, p.WalkFields(errors, m, depth, n), f, depth);
      FieldsKeep(p, errors, m, depth, n + 1, |p.Fields(m)|, to);
    } else {
      var y :| Links(p, m, y) && p.Sound(y) && Below(p, x, y, p.maxDepth - depth - 1);
      var f :| f in p.Fields(m) && Followed(f) && f.related == y;
      var n :| 0 <= n < |p.Fields(m)| && p.Fields(m)[n] == f;
      var before := p.WalkFields(errors, m, depth, n);
      WalkFieldsIsRight(p, errors, m, depth, n);
      assert !Warned(before, y);
      assert Near(p, y, depth + 1);
      WalkCovers(p, before, y, depth + 1, x, to);
      assert p.WalkFields(errors, m, depth, n + 1) == p.WalkField(before, f, depth) == p.Walk(before, y, depth + 1);
      FieldsKeep(p, errors, m, depth, n + 1, |p.Fields(m)|, to);
    }
  }

  lemma {:induction false} FieldsKeep(p: Project, errors: seq<Error>, m: Model, depth: nat, k: nat, n: nat, to: Model)
    requires depth <= p.maxDepth && k <= n <= |p.Fields(m)|
    requires Warned(p.WalkFields(errors, m, depth, k), to)
    ensures Warned(p.WalkFields(errors, m, depth, n), to)
  {
    if k < n {
      FieldsKeep(p, errors, m, depth, k, n - 1, to);
      WalkFieldGrows(p, p.WalkFields(errors, m, depth, n - 1), p.Fields(m)[n - 1], depth);
      WarnedGrows(p.WalkFields(errors, m, depth, n - 1), p.WalkFields(errors, m, depth, n), to);
    }
  }

  lemma {:induction false} ReportIsRight(p: Project, n: nat)
    requires n <= |p.installed|
    ensures Right(p, p.Report(n))
  {
    if n > 0 {
      ReportIsRight(p, n - 1);
      WalkIsRight(p, p.Report(n - 1), p.installed[n - 1], 0);
    }
  }

  lemma {:induction false} ReportCovers(p: Project, n: nat, i: nat, x: Model, to: Model)
    requires i < n <= |p.installed|
    requires Below(p, x, p.installed[i], p.maxDepth) && Links(p, x, to) && !p.Sound(to)
    ensures Warned(p.Report(n), to)
  {
    if i == n - 1 {
      ReportIsRight(p, n - 1);
      WalkCovers(p, p.Report(n - 1), p.installed[i], 0, x, to);
    } else {
      ReportCovers(p, n - 1, i, x, to);
      WalkGrows(p, p.Report(n - 1), p.installed[n - 1], 0);
      WarnedGrows(p.Report(n - 1), p.Report(n), to);
    }
  }

  // ------------------------------------------------------------ the report

  function FullReport(p: Project): seq<Error> {
    p.Report(|p.installed|)
  }

  /** For any project and any depth bound: the report has one error at most for each model, with
      its fault, on models that may be reported only, and it misses none that must be. */
  lemma ReportIsBetween(p: Project)
    ensures Right(p, FullReport(p))
    ensures forall m :: MustBeReported(p, m) ==> Warned(FullReport(p), m)
  {
    ReportIsRight(p, |p.installed|);
    forall m | MustBeReported(p, m)
      ensures Warned(FullReport(p), m)
    {
      var r, x :| r in p.installed && Below(p, x, r, p.maxDepth) && Links(p, x, m);
      var i :| 0 <= i < |p.installed| && p.installed[i] == r;
      ReportCovers(p, |p.installed|, i, x, m);
    }
  }

  /** In the model `m`, the links that count: foreign keys and many-to-many fields that are
      viewable and enumerable, of an entity model that is not a fake. */
  ghost predicate HasLink(info: Info, related: Model) {
    && info.isEntity && !info.isFake
    && exists f :: f in info.fields && f.related == related
                   && f.isForeignKeyOrManyToMany && f.viewable && f.enumerable
  }

  lemma LinksMeans(p: Project, m: Model, related: Model)
    ensures Links(p, m, related) <==> HasLink(p.info(m), related)
  {
    if Links(p, m, related) {
      var f :| f in p.Fields(m) && Followed(f) && f.related == related;
      assert f in p.info(m).fields && f.viewable;
    }
    if HasLink(p.info(m), related) {
      var f :| && f in p.info(m).fields && f.related == related
               && f.isForeignKeyOrManyToMany && f.viewable && f.enumerable;
      assert f in p.Fields(m) && Followed(f);
    }
  }

  /** Each error is on a model that some link leads to, and tells what is missing first. */
  lemma ErrorsTell(p: Project, e: Error)
    requires e in FullReport(p)
    ensures exists m :: HasLink(p.info(m), e.model)
    ensures var info := p.info(e.model);
            && (e.fault == NoPortableKey ==> !info.hasPortableKey)
            && (e.fault == NoGetByPortableKey ==> info.hasPortableKey && !info.managerGetsByKey)
            && (e.fault == NoGetByPortableKeys ==>
                info.hasPortableKey && info.managerGetsByKey && !info.managerGetsByKeys)
  {
    ReportIsBetween(p);
    var m :| Near(p, m, p.maxDepth) && Links(p, m, e.model);
    LinksMeans(p, m, e.model);
  }

  /** A link from an installed model to a model that lacks something is never missed. */
  lemma LinksAreReported(p: Project, m: Model, related: Model)
    requires m in p.installed && HasLink(p.info(m), related)
    requires var info := p.info(related);
             !info.hasPortableKey || !info.managerGetsByKey || !info.managerGetsByKeys
    ensures exists e :: e in FullReport(p) && e.model == related
  {
    LinksMeans(p, m, related);
    ReportIsBetween(p);
    assert Below(p, m, m, p.maxDepth);
    assert MustBeReported(p, related);
    var i :| 0 <= i < |FullReport(p)| && FullReport(p)[i].model == related;
    assert FullReport(p)[i] in FullReport(p);
  }

  /** Models that are walked through without being installed are sound. */
  ghost predicate SoundBetween(p: Project) {
    forall m :: Examined(p.info(m)) && m !in p.installed ==> p.Sound(m)
  }

  lemma {:induction false} BelowOneMore(p: Project, y: Model, x: Model, m: Model, n: nat)
    requires Below(p, x, m, n) && Links(p, x, y) && p.Sound(y)
    ensures Below(p, y, m, n + 1)
    decreases n
  {
    if x == m {
      assert Below(p, y, y, n);
    } else {
      var w :| Links(p, m, w) && p.Sound(w) && Below(p, x, w, n - 1);
      BelowOneMore(p, y, x, w, n - 1);
    }
  }

  lemma {:induction false} BelowGrows(p: Project, x: Model, m: Model, n: nat)
    requires Below(p, x, m, n)
    ensures Below(p, x, m, n + 1)
    decreases n
  {
    if x != m {
      var w :| Links(p, m, w) && p.Sound(w) && Below(p, x, w, n - 1);
      BelowGrows(p, x, w, n - 1);
    }
  }

  lemma {:induction false} NearIsBelow(p: Project, x: Model, d: nat) returns (r: Model)
    requires SoundBetween(p) && Near(p, x, d) && Examined(p.info(x))
    ensures r in p.installed && Below(p, x, r, d)
    decreases d
  {
    if x in p.installed {
      r := x;
    } else if Near(p, x, d - 1) {
      r := NearIsBelow(p, x, d - 1);
      BelowGrows(p, x, r, d - 1);
    } else {
      var w :| Near(p, w, d - 1) && Links(p, w, x);
      r := NearIsBelow(p, w, d - 1);
      BelowOneMore(p, x, w, r, d - 1);
    }
  }

  /** When what is walked through without being installed is sound, the report is exact. */
  lemma ReportIsExact(p: Project)
    requires SoundBetween(p)
    ensures forall m :: Warned(FullReport(p), m) <==> MayBeReported(p, m)
  {
    ReportIsBetween(p);
    forall m | Warned(FullReport(p), m)
      ensures MayBeReported(p, m)
    {
      var i :| 0 <= i < |FullReport(p)| && FullReport(p)[i].model == m;
      assert FullReport(p)[i] in FullReport(p);
    }
    forall m | MayBeReported(p, m)
      ensures MustBeReported(p, m)
    {
      var x :| Near(p, x, p.maxDepth) && Links(p, x, m);
      var r := NearIsBelow(p, x, p.maxDepth);
    }
  }

  /** The models related to installed ones are installed too. */
  ghost predicate Closed(p: Project) {
    forall m, r :: m in p.installed && Links(p, m, r) ==> r in p.installed
  }

  lemma {:induction false} NearIsInstalled(p: Project, m: Model, d: nat)
    requires Closed(p) && Near(p, m, d)
    ensures m in p.installed
    decreases d
  {
    if d > 0 {
      if !Near(p, m, d - 1) {
        var x :| Near(p, x, d - 1) && Links(p, x, m);
        NearIsInstalled(p, x, d - 1);
      } else {
        NearIsInstalled(p, m, d - 1);
      }
    }
  }

  /** When related models are installed too, exactly the faulty models that an installed one
      links to are reported, whatever the depth bound. */
  lemma ClosedReportIsExact(p: Project)
    requires Closed(p)
    ensures forall m :: Warned(FullReport(p), m) <==> !p.Sound(m) && exists s :: s in p.installed && Links(p, s, m)
  {
    ReportIsBetween(p);
    forall m | Warned(FullReport(p), m)
      ensures !p.Sound(m) && exists s :: s in p.installed && Links(p, s, m)
    {
      var i :| 0 <= i < |FullReport(p)| && FullReport(p)[i].model == m;
      assert FullReport(p)[i] in FullReport(p);
      var x :| Near(p, x, p.maxDepth) && Links(p, x, m);
      NearIsInstalled(p, x, p.maxDepth);
    }
    forall m, s | !p.Sound(m) && s in p.installed && Links(p, s, m)
      ensures Warned(FullReport(p), m)
    {
      assert Below(p, s, s, p.maxDepth);
      assert MustBeReported(p, m);
    }
  }

  // ------------------------------------------------------------ the order matters

  /** Models 0 and 1 are installed. Model 0 links to the sound model 2, which links to the
      faulty model 3; model 1 links to model 3, which links to the faulty model 4. */
  function DetourInfo(m: Model): Info {
    var sound := m < 3;
    var related := if m == 0 then 2 else if m < 3 then 3 else 4;
    Info(m < 4, false, [Field(true, true, true, related)], sound, sound, sound)
  }

  function Detour(installed: seq<Model>): Project {
    Project(DetourInfo, installed, 1)
  }

  lemma WalkDetour(installed: seq<Model>, errors: seq<Error>, m: Model, depth: nat)
    requires depth <= 1 && m < 4
    ensures var p := Detour(installed); p.Walk(errors, m, depth) == p.WalkField(errors, p.Fields(m)[0], depth)
  {
    var p := Detour(installed);
    assert p.WalkFields(errors, m, depth, 1) == p.WalkField(p.WalkFields(errors, m, depth, 0), p.Fields(m)[0], depth);
  }

  /** Model 4 is reported or not according to the order of the installed models: when model 3
      is first met at the bottom of a walk it counts as warned, and is never walked through. */
  lemma OrderMatters()
    ensures FullReport(Detour([0, 1])) == [Error(3, NoPortableKey)]
    ensures FullReport(Detour([1, 0])) == [Error(3, NoPortableKey), Error(4, NoPortableKey)]
  {
    var p, e3, e4 := Detour([0, 1]), Error(3, NoPortableKey), Error(4, NoPortableKey);
    WalkDetour([0, 1], [], 0, 0);
    WalkDetour([0, 1], [], 2, 1);
    WalkDetour([0, 1], [e3], 1, 0);
    assert p.Walk([], 2, 1) == [e3];
    assert p.Walk([], 0, 0) == [e3];
    assert [e3][0].model == 3;
    assert p.Report(0) == [] && p.Report(1) == [e3] && p.Report(2) == [e3];
    var q := Detour([1, 0]);
    WalkDetour([1, 0], [], 1, 0);
    WalkDetour([1, 0], [e3], 3, 1);
    WalkDetour([1, 0], [e3, e4], 0, 0);
    WalkDetour([1, 0], [e3, e4], 2, 1);
    assert q.Walk([e3], 3, 1) == [e3, e4];
    assert q.Walk([], 1, 0) == [e3, e4];
    assert [e3, e4][0].model == 3;
    assert q.Walk([e3, e4], 2, 1) == [e3, e4];
    assert q.Report(0) == [] && q.Report(1) == [e3, e4] && q.Report(2) == [e3, e4];
  }
}
