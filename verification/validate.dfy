/** Lines 96-147 of diagram_chat.py, `validate_payload`: collects every
    structural and referential problem of a decoded payload, in discovery
    order, and never repairs anything. */
module Validate {
  import opened Wrappers
  import opened Json
  import Text
  import Schema

  /** A problem with one technology or relationship item. */
  datatype Problem =
    | NotObject
    | MissingField(key: string)
    | IdNotInt
    | FromUnknown(name: string)
    | ToUnknown(name: string)

  /** One validation problem. Item positions are 1-based, as in the messages. */
  datatype Issue =
    | MissingKey(key: string)
    | TechsNotList
    | RelsNotList
    | TechIssue(i: nat, problem: Problem)
    | RelIssue(i: nat, problem: Problem)

  function RenderProblem(p: Problem): string {
    match p
    case NotObject => " must be an object"
    case MissingField(k) => " missing key: " + k
    case IdNotInt => ".node_id must be int"
    case FromUnknown(f) => ".from \"" + f + "\" not in technologies.name"
    case ToUnknown(t) => ".to \"" + t + "\" not in technologies.name"
  }

  /** The message text the source appends for each problem. */
  function Render(e: Issue): string {
    match e
    case MissingKey(k) => "missing key: " + k
    case TechsNotList => "technologies must be a list"
    case RelsNotList => "relationships must be a list"
    case TechIssue(i, p) => "technologies[" + Text.NatToString(i) + "]" + RenderProblem(p)
    case RelIssue(i, p) => "relationships[" + Text.NatToString(i) + "]" + RenderProblem(p)
  }

  /** The messages for `errs`, one per problem, in the same order. */
  function Messages(errs: seq<Issue>): (r: seq<string>)
    ensures |r| == |errs|
    decreases |errs|
  {
    if errs == [] then [] else [Render(errs[0])] + Messages(errs[1..])
  }

  /** Message `n` renders problem `n`. */
  lemma {:induction false} MessageAt(errs: seq<Issue>, n: nat)
    requires n < |errs|
    ensures Messages(errs)[n] == Render(errs[n])
    decreases |errs|
  {
    var rest := Messages(errs[1..]);
    assert Messages(errs) == [Render(errs[0])] + rest;
    if n > 0 {
      MessageAt(errs[1..], n - 1);
      assert Messages(errs)[n] == rest[n - 1];
    }
  }

  // ---------------------------------------------------------------------------
  // Problems with one item

  /** The keys of `keys` that `ms` lacks, in the order of `keys`. */
  function MissingKeys(ms: Members, keys: seq<string>): (r: seq<string>)
    ensures forall k :: k in r <==> k in keys && !Has(ms, k)
    ensures |r| <= |keys|
    decreases |keys|
  {
    if keys == [] then []
    else (if Has(ms, keys[0]) then [] else [keys[0]]) + MissingKeys(ms, keys[1..])
  }

  function MissingFields(ms: Members, keys: seq<string>): seq<Problem> {
    var missing := MissingKeys(ms, keys);
    seq(|missing|, n requires 0 <= n < |missing| => MissingField(missing[n]))
  }

  /** Exactly the absent keys are reported, and nothing but absent keys. */
  lemma MissingFieldsSpec(ms: Members, keys: seq<string>)
    ensures forall p :: p in MissingFields(ms, keys) <==> p.MissingField? && p.key in keys && !Has(ms, p.key)
  {
    var missing := MissingKeys(ms, keys);
    var r := MissingFields(ms, keys);
    forall k | k in missing ensures MissingField(k) in r {
      var n :| 0 <= n < |missing| && missing[n] == k;
      assert r[n] == MissingField(k);
    }
  }

  /** The trimmed, non-empty string name a technology item declares, if any. */
  function DeclaredName(t: Value): Option<string> {
    if t.JObj? && Find(t.members, "name").Some? && Find(t.members, "name").value.JStr?
       && Text.Trim(Find(t.members, "name").value.s) != ""
    then Some(Text.Trim(Find(t.members, "name").value.s))
    else None
  }

  /** The set of names relationships may refer to. */
  function NameSet(items: seq<Value>): set<string> {
    set i | 0 <= i < |items| && DeclaredName(items[i]).Some? :: DeclaredName(items[i]).value
  }

  /** A name is declared exactly when some technology item declares it. */
  lemma NameSetSpec(items: seq<Value>, n: string)
    ensures n in NameSet(items) <==> exists i :: 0 <= i < |items| && DeclaredName(items[i]) == Some(n)
  {
  }

  /** Problems with one technology item. */
  function TechProblems(t: Value): (r: seq<Problem>)
    ensures !t.JObj? ==> r == [NotObject]
  {
    if !t.JObj? then [NotObject]
    else
      MissingFields(t.members, Schema.TechItemKeys)
      + (if Has(t.members, "node_id") && !IsPyInt(Find(t.members, "node_id").value) then [IdNotInt] else [])
  }

  /** A technology object draws one problem per absent item key, one more when
      its `node_id` is present but not an integer, and nothing else. */
  lemma TechProblemsSpec(t: Value)
    requires t.JObj?
    ensures forall k :: MissingField(k) in TechProblems(t) <==> k in Schema.TechItemKeys && !Has(t.members, k)
    ensures IdNotInt in TechProblems(t) <==> Has(t.members, "node_id") && !IsPyInt(Find(t.members, "node_id").value)
    ensures NotObject !in TechProblems(t)
    ensures forall q :: q in TechProblems(t) ==> q.MissingField? || q == IdNotInt
  {
    MissingFieldsSpec(t.members, Schema.TechItemKeys);
  }

  function FromPart(f: string, names: set<string>): seq<Problem> {
    if f != "" && f !in names then [FromUnknown(f)] else []
  }

  function ToPart(t: string, names: set<string>): seq<Problem> {
    if t != "" && t !in names then [ToUnknown(t)] else []
  }

  /** Problems with one relationship item, checked against `names`. */
  function RelProblems(r: Value, names: set<string>): (res: Result<seq<Problem>, PyError>)
    ensures !r.JObj? ==> res == Success([NotObject])
    ensures r.JObj? ==> (res.Failure? <==> StrippedText(r.members, "from").Failure? || StrippedText(r.members, "to").Failure?)
    ensures res.Failure? ==> res.error == AttributeError
  {
    if !r.JObj? then Success([NotObject])
    else
      var f :- StrippedText(r.members, "from");
      var t :- StrippedText(r.members, "to");
      Success(MissingFields(r.members, Schema.RelItemKeys) + FromPart(f, names) + ToPart(t, names))
  }

  // ---------------------------------------------------------------------------
  // Numbering the items

  /** The phase of a collection's item problems: 1 for technologies, 2 for relationships. */
  function PhaseOf(tech: bool): nat {
    if tech then 1 else 2
  }

  /** The problems of item `i`, tagged with their collection and position. */
  function Tag(tech: bool, i: nat, ps: seq<Problem>): seq<Issue> {
    seq(|ps|, n requires 0 <= n < |ps| => if tech then TechIssue(i, ps[n]) else RelIssue(i, ps[n]))
  }

  /** The problems of consecutive items, numbered from `first` (`enumerate(.., 1)`). */
  function Tagged(tech: bool, pss: seq<seq<Problem>>, first: nat): seq<Issue>
    decreases |pss|
  {
    if pss == [] then [] else Tag(tech, first, pss[0]) + Tagged(tech, pss[1..], first + 1)
  }

  /** Tagging keeps the problems and their order, and names item `i`. */
  lemma TagSpec(tech: bool, i: nat, ps: seq<Problem>)
    ensures |Tag(tech, i, ps)| == |ps|
    ensures forall n :: 0 <= n < |ps| ==> Tag(tech, i, ps)[n] == if tech then TechIssue(i, ps[n]) else RelIssue(i, ps[n])
    ensures forall e :: e in Tag(tech, i, ps) ==> Phase(e) == PhaseOf(tech) && Position(e) == i
  {
  }

  lemma {:induction false} TaggedRange(tech: bool, pss: seq<seq<Problem>>, first: nat)
    ensures forall e :: e in Tagged(tech, pss, first) ==> Phase(e) == PhaseOf(tech) && first <= Position(e) < first + |pss|
    decreases |pss|
  {
    if pss != [] {
      TagSpec(tech, first, pss[0]);
      TaggedRange(tech, pss[1..], first + 1);
    }
  }

  /** The problem lists of the technology items. */
  function TechLists(items: seq<Value>): seq<seq<Problem>>
    decreases |items|
  {
    if items == [] then [] else [TechProblems(items[0])] + TechLists(items[1..])
  }

  /** One list per item, in item order. */
  lemma {:induction false} TechListsSpec(items: seq<Value>, n: nat)
    ensures |TechLists(items)| == |items|
    ensures n < |items| ==> TechLists(items)[n] == TechProblems(items[n])
    decreases |items|
  {
    if items != [] {
      TechListsSpec(items[1..], if n == 0 then 0 else n - 1);
      if n > 0 && n < |items| {
        assert items[n] == items[1..][n - 1];
      }
    }
  }

  /** Problems with the technology items. */
  function TechIssues(items: seq<Value>): seq<Issue> {
    Tagged(true, TechLists(items), 1)
  }

  /** The problem lists of the relationship items; the first item whose
      endpoint cannot be stripped raises. */
  function RelLists(items: seq<Value>, names: set<string>): (r: Result<seq<seq<Problem>>, PyError>)
    ensures r.Failure? ==> r.error == AttributeError
    decreases |items|
  {
    if items == [] then Success([])
    else
      var head :- RelProblems(items[0], names);
      var tail :- RelLists(items[1..], names);
      Success([head] + tail)
  }

  /** Without a raise, the lists are the items' problem lists, one per item. */
  lemma {:induction false} RelListsSpec(items: seq<Value>, names: set<string>, n: nat)
    requires RelLists(items, names).Success?
    ensures |RelLists(items, names).value| == |items|
    ensures n < |items| ==>
              RelProblems(items[n], names).Success? && RelLists(items, names).value[n] == RelProblems(items[n], names).value
    decreases |items|
  {
    if items != [] {
      RelListsSpec(items[1..], names, if n == 0 then 0 else n - 1);
      if n > 0 && n < |items| {
        assert items[n] == items[1..][n - 1];
      }
    }
  }

  /** The lists raise exactly when some item's problems raise. */
  lemma {:induction false} RelListsFailIff(items: seq<Value>, names: set<string>)
    ensures RelLists(items, names).Failure? <==> exists n :: 0 <= n < |items| && RelProblems(items[n], names).Failure?
    decreases |items|
  {
    if items != [] {
      RelListsFailIff(items[1..], names);
      assert forall n :: 1 <= n < |items| ==> items[n] == items[1..][n - 1];
    }
  }

  /** Problems with the relationship items. */
  function RelIssues(items: seq<Value>, names: set<string>): (r: Result<seq<Issue>, PyError>)
    ensures r.Failure? ==> r.error == AttributeError
  {
    var pss :- RelLists(items, names);
    Success(Tagged(false, pss, 1))
  }

  // ---------------------------------------------------------------------------
  // The whole payload

  /** `techs` after lines 106-109: the list, or `[]` in its place. */
  function TechItems(p: Members): seq<Value> {
    var tv := GetOr(p, "technologies", JArr([]));
    if tv.JArr? then tv.items else []
  }

  /** `rels` after lines 127-130. */
  function RelItems(p: Members): seq<Value> {
    var rv := GetOr(p, "relationships", JArr([]));
    if rv.JArr? then rv.items else []
  }

  function TopIssues(p: Members): seq<Issue> {
    var top := MissingKeys(p, Schema.RequiredKeys);
    seq(|top|, n requires 0 <= n < |top| => MissingKey(top[n]))
  }

  lemma TopIssuesSpec(p: Members)
    ensures forall k :: MissingKey(k) in TopIssues(p) <==> k in Schema.RequiredKeys && !Has(p, k)
    ensures forall e :: e in TopIssues(p) ==> e.MissingKey?
  {
    var top := MissingKeys(p, Schema.RequiredKeys);
    var r := TopIssues(p);
    forall k | k in top ensures MissingKey(k) in r {
      var n :| 0 <= n < |top| && top[n] == k;
      assert r[n] == MissingKey(k);
    }
  }

  function TechHead(p: Members): seq<Issue> {
    if GetOr(p, "technologies", JArr([])).JArr? then [] else [TechsNotList]
  }

  function RelHead(p: Members): seq<Issue> {
    if GetOr(p, "relationships", JArr([])).JArr? then [] else [RelsNotList]
  }

  /** `validate_payload` on a dict: the problems, in discovery order; fails
      only where the source raises. */
  function Validate(p: Members): (r: Result<seq<Issue>, PyError>)
    ensures r.Failure? ==> r.error == AttributeError
  {
    var rels :- RelIssues(RelItems(p), NameSet(TechItems(p)));
    Success(TopIssues(p) + TechHead(p) + TechIssues(TechItems(p)) + RelHead(p) + rels)
  }

  /** `validate_payload(payload)`: `(ok, errors)`. A payload that is not a dict
      makes the source raise at its first `in` test or `.get` call. */
  function ValidatePayload(v: Value): (r: Result<(bool, seq<string>), PyError>)
    ensures r.Failure? <==> !v.JObj? || Validate(v.members).Failure?
    ensures r.Success? ==> (r.value.0 <==> Conforms(v.members))
    ensures r.Success? ==> (r.value.0 <==> r.value.1 == [])
    ensures r.Success? ==> r.value.1 == Messages(Validate(v.members).value)
  {
    match v
    case JObj(ms) =>
      var issues :- Validate(ms);
      ValidateOkIffConforms(ms);
      Success((issues == [], Messages(issues)))
    case JArr(_) => Failure(AttributeError)
    case JStr(_) => Failure(AttributeError)
    case _ => Failure(TypeError)
  }

  /** The five parts of a report: top-level keys, the technologies list
      problem, technology items, the relationships list problem,
      relationship items. */
  predicate Phased(top: seq<Issue>, th: seq<Issue>, techs: seq<Issue>, rh: seq<Issue>, rels: seq<Issue>) {
    && (forall e :: e in top ==> Phase(e) == 0)
    && |th| <= 1 && (forall e :: e in th ==> e == TechsNotList)
    && |rh| <= 1 && (forall e :: e in rh ==> e == RelsNotList)
    && (forall e :: e in techs ==> Phase(e) == 1 && Position(e) >= 1)
    && (forall e :: e in rels ==> Phase(e) == 2 && Position(e) >= 1)
  }

  /** How a successful report is assembled, with the phase of each part. */
  lemma ValidateShape(p: Members)
    requires Validate(p).Success?
    ensures RelLists(RelItems(p), NameSet(TechItems(p))).Success?
    ensures Validate(p).value == TopIssues(p) + TechHead(p) + TechIssues(TechItems(p)) + RelHead(p)
                                 + Tagged(false, RelLists(RelItems(p), NameSet(TechItems(p))).value, 1)
    ensures Phased(TopIssues(p), TechHead(p), TechIssues(TechItems(p)), RelHead(p),
                   Tagged(false, RelLists(RelItems(p), NameSet(TechItems(p))).value, 1))
  {
    TopIssuesSpec(p);
    TaggedRange(true, TechLists(TechItems(p)), 1);
    TaggedRange(false, RelLists(RelItems(p), NameSet(TechItems(p))).value, 1);
  }

  // ---------------------------------------------------------------------------
  // The order problems are reported in

  /** 0 for top-level keys, 1 for technologies, 2 for relationships. */
  function Phase(e: Issue): nat {
    match e
    case MissingKey(_) => 0
    case TechsNotList => 1
    case TechIssue(_, _) => 1
    case RelsNotList => 2
    case RelIssue(_, _) => 2
  }

  /** The 1-based item a problem is about; 0 for list-level problems. */
  function Position(e: Issue): nat {
    if e.TechIssue? || e.RelIssue? then e.i else 0
  }

  predicate ReportedBefore(a: Issue, b: Issue) {
    Phase(a) < Phase(b) || (Phase(a) == Phase(b) && Position(a) <= Position(b))
  }

  predicate InReportOrder(errs: seq<Issue>) {
    forall a, b :: 0 <= a < b < |errs| ==> ReportedBefore(errs[a], errs[b])
  }

  lemma OrderedConcat(xs: seq<Issue>, ys: seq<Issue>)
    requires InReportOrder(xs) && InReportOrder(ys)
    requires forall x, y :: x in xs && y in ys ==> ReportedBefore(x, y)
    ensures InReportOrder(xs + ys)
  {
    var zs := xs + ys;
    forall a, b | 0 <= a < b < |zs| ensures ReportedBefore(zs[a], zs[b]) {
      if b < |xs| {
        assert zs[a] == xs[a] && zs[b] == xs[b];
      } else if a >= |xs| {
        assert zs[a] == ys[a - |xs|] && zs[b] == ys[b - |xs|];
      } else {
        assert zs[a] in xs && zs[b] in ys;
      }
    }
  }

  lemma {:induction false} TaggedOrdered(tech: bool, pss: seq<seq<Problem>>, first: nat)
    ensures InReportOrder(Tagged(tech, pss, first))
    decreases |pss|
  {
    if pss != [] {
      TaggedOrdered(tech, pss[1..], first + 1);
      TagSpec(tech, first, pss[0]);
      TaggedRange(tech, pss[1..], first + 1);
      OrderedConcat(Tag(tech, first, pss[0]), Tagged(tech, pss[1..], first + 1));
    }
  }

  lemma OrderedReport(top: seq<Issue>, th: seq<Issue>, techs: seq<Issue>, rh: seq<Issue>, rels: seq<Issue>)
    requires Phased(top, th, techs, rh, rels)
    requires InReportOrder(techs) && InReportOrder(rels)
    ensures InReportOrder(top + th + techs + rh + rels)
  {
    OrderedConcat(top, th);
    OrderedConcat(top + th, techs);
    OrderedConcat(top + th + techs, rh);
    OrderedConcat(top + th + techs + rh, rels);
  }

  /** Problems come out top-level keys first, then technology items in list
      order, then relationship items in list order. */
  lemma ValidateReportsInOrder(p: Members)
    requires Validate(p).Success?
    ensures InReportOrder(Validate(p).value)
  {
    ValidateShape(p);
    var pss := RelLists(RelItems(p), NameSet(TechItems(p))).value;
    TaggedOrdered(true, TechLists(TechItems(p)), 1);
    TaggedOrdered(false, pss, 1);
    OrderedReport(TopIssues(p), TechHead(p), TechIssues(TechItems(p)), RelHead(p), Tagged(false, pss, 1));
  }

  // ---------------------------------------------------------------------------
  // Per-item views of the report

  /** The problems reported about item `i` of phase `phase`. */
  function About(errs: seq<Issue>, phase: nat, i: nat): seq<Issue>
    decreases |errs|
  {
    if errs == [] then []
    else (if Phase(errs[0]) == phase && Position(errs[0]) == i then [errs[0]] else [])
         + About(errs[1..], phase, i)
  }

  lemma {:induction false} AboutConcat(xs: seq<Issue>, ys: seq<Issue>, phase: nat, i: nat)
    ensures About(xs + ys, phase, i) == About(xs, phase, i) + About(ys, phase, i)
    decreases |xs|
  {
    if xs != [] {
      assert (xs + ys)[0] == xs[0];
      assert (xs + ys)[1..] == xs[1..] + ys;
      AboutConcat(xs[1..], ys, phase, i);
    } else {
      assert xs + ys == ys;
    }
  }

  lemma {:induction false} AboutNone(xs: seq<Issue>, phase: nat, i: nat)
    requires forall e :: e in xs ==> Phase(e) != phase || Position(e) != i
    ensures About(xs, phase, i) == []
    decreases |xs|
  {
    if xs != [] {
      AboutNone(xs[1..], phase, i);
    }
  }

  lemma {:induction false} AboutAll(xs: seq<Issue>, phase: nat, i: nat)
    requires forall e :: e in xs ==> Phase(e) == phase && Position(e) == i
    ensures About(xs, phase, i) == xs
    decreases |xs|
  {
    if xs != [] {
      AboutAll(xs[1..], phase, i);
    }
  }

  lemma {:induction false} AboutMembers(errs: seq<Issue>, phase: nat, i: nat, e: Issue)
    ensures e in About(errs, phase, i) <==> e in errs && Phase(e) == phase && Position(e) == i
    decreases |errs|
  {
    if errs != [] {
      AboutMembers(errs[1..], phase, i, e);
      assert errs == [errs[0]] + errs[1..];
    }
  }

  lemma AboutTag(tech: bool, i: nat, ps: seq<Problem>, k: nat)
    ensures About(Tag(tech, i, ps), PhaseOf(tech), k) == if k == i then Tag(tech, i, ps) else []
  {
    TagSpec(tech, i, ps);
    if k == i {
      AboutAll(Tag(tech, i, ps), PhaseOf(tech), k);
    } else {
      AboutNone(Tag(tech, i, ps), PhaseOf(tech), k);
    }
  }

  lemma {:induction false} TaggedAboutEarlier(tech: bool, pss: seq<seq<Problem>>, first: nat, k: nat)
    requires k < first
    ensures About(Tagged(tech, pss, first), PhaseOf(tech), k) == []
    decreases |pss|
  {
    if pss != [] {
      var head := Tag(tech, first, pss[0]);
      var tail := Tagged(tech, pss[1..], first + 1);
      assert Tagged(tech, pss, first) == head + tail;
      AboutConcat(head, tail, PhaseOf(tech), k);
      AboutTag(tech, first, pss[0], k);
      TaggedAboutEarlier(tech, pss[1..], first + 1, k);
    }
  }

  /** Among numbered items, the problems about item `k` are that item's own. */
  lemma {:induction false} TaggedAbout(tech: bool, pss: seq<seq<Problem>>, first: nat, k: nat)
    requires first <= k < first + |pss|
    ensures About(Tagged(tech, pss, first), PhaseOf(tech), k) == Tag(tech, k, pss[k - first])
    decreases |pss|
  {
    var head := Tag(tech, first, pss[0]);
    var tail := Tagged(tech, pss[1..], first + 1);
    assert Tagged(tech, pss, first) == head + tail;
    AboutConcat(head, tail, PhaseOf(tech), k);
    AboutTag(tech, first, pss[0], k);
    if k == first {
      TaggedAboutEarlier(tech, pss[1..], first + 1, k);
    } else {
      TaggedAbout(tech, pss[1..], first + 1, k);
      assert pss[1..][k - (first + 1)] == pss[k - first];
    }
  }

  lemma AboutReportPhase(top: seq<Issue>, th: seq<Issue>, techs: seq<Issue>, rh: seq<Issue>, rels: seq<Issue>, phase: nat, i: nat)
    requires i >= 1 && phase >= 1 && Phased(top, th, techs, rh, rels)
    ensures About(top + th + techs + rh + rels, phase, i) == About(techs, phase, i) + About(rels, phase, i)
  {
    var a := top + th;
    var b := a + techs;
    var c := b + rh;
    AboutNone(top, phase, i);
    AboutNone(th, phase, i);
    AboutNone(rh, phase, i);
    AboutConcat(top, th, phase, i);
    assert About(a, phase, i) == [];
    AboutConcat(a, techs, phase, i);
    assert About(b, phase, i) == About(techs, phase, i);
    AboutConcat(b, rh, phase, i);
    assert About(c, phase, i) == About(techs, phase, i);
    AboutConcat(c, rels, phase, i);
  }

  lemma AboutReport(top: seq<Issue>, th: seq<Issue>, techs: seq<Issue>, rh: seq<Issue>, rels: seq<Issue>, i: nat)
    requires i >= 1 && Phased(top, th, techs, rh, rels)
    ensures About(top + th + techs + rh + rels, 1, i) == About(techs, 1, i)
    ensures About(top + th + techs + rh + rels, 2, i) == About(rels, 2, i)
  {
    AboutReportPhase(top, th, techs, rh, rels, 1, i);
    AboutReportPhase(top, th, techs, rh, rels, 2, i);
    AboutNone(rels, 1, i);
    AboutNone(techs, 2, i);
  }

  /** What a report says about an item is what its collection's part says. */
  lemma ValidateAbout(p: Members, i: nat)
    requires Validate(p).Success? && i >= 1
    ensures RelLists(RelItems(p), NameSet(TechItems(p))).Success?
    ensures About(Validate(p).value, 1, i) == About(TechIssues(TechItems(p)), 1, i)
    ensures About(Validate(p).value, 2, i) == About(Tagged(false, RelLists(RelItems(p), NameSet(TechItems(p))).value, 1), 2, i)
  {
    ValidateShape(p);
    AboutReport(TopIssues(p), TechHead(p), TechIssues(TechItems(p)), RelHead(p),
                Tagged(false, RelLists(RelItems(p), NameSet(TechItems(p))).value, 1), i);
  }

  lemma TechIssuesAbout(items: seq<Value>, i: nat)
    requires 1 <= i <= |items|
    ensures About(TechIssues(items), 1, i) == Tag(true, i, TechProblems(items[i - 1]))
  {
    TechListsSpec(items, i - 1);
    TaggedAbout(true, TechLists(items), 1, i);
  }

  lemma RelIssuesAbout(items: seq<Value>, names: set<string>, j: nat)
    requires RelLists(items, names).Success? && 1 <= j <= |items|
    ensures RelProblems(items[j - 1], names).Success?
    ensures About(Tagged(false, RelLists(items, names).value, 1), 2, j) == Tag(false, j, RelProblems(items[j - 1], names).value)
  {
    RelListsSpec(items, names, j - 1);
    TaggedAbout(false, RelLists(items, names).value, 1, j);
  }

  /** The report about technology item `i` is exactly what that item alone calls for. */
  lemma ValidateAboutTech(p: Members, i: nat)
    requires Validate(p).Success?
    requires 1 <= i <= |TechItems(p)|
    ensures About(Validate(p).value, 1, i) == Tag(true, i, TechProblems(TechItems(p)[i - 1]))
  {
    ValidateAbout(p, i);
    TechIssuesAbout(TechItems(p), i);
  }

  /** A technology entry that is not an object draws exactly one problem,
      `technologies[i] must be an object`, and no other check. */
  lemma NonObjectTechReportedOnce(p: Members, i: nat)
    requires Validate(p).Success?
    requires 1 <= i <= |TechItems(p)| && !TechItems(p)[i - 1].JObj?
    ensures About(Validate(p).value, 1, i) == [TechIssue(i, NotObject)]
  {
    ValidateAboutTech(p, i);
    TagSpec(true, i, [NotObject]);
  }

  /** The report about relationship item `j` is exactly what that item alone calls for. */
  lemma ValidateAboutRel(p: Members, j: nat)
    requires Validate(p).Success?
    requires 1 <= j <= |RelItems(p)|
    ensures RelProblems(RelItems(p)[j - 1], NameSet(TechItems(p))).Success?
    ensures About(Validate(p).value, 2, j) == Tag(false, j, RelProblems(RelItems(p)[j - 1], NameSet(TechItems(p))).value)
  {
    ValidateAbout(p, j);
    RelIssuesAbout(RelItems(p), NameSet(TechItems(p)), j);
  }

  /** A relationship entry that is not an object draws exactly one problem,
      `relationships[j] must be an object`, and no endpoint check. */
  lemma NonObjectRelReportedOnce(p: Members, j: nat)
    requires Validate(p).Success?
    requires 1 <= j <= |RelItems(p)| && !RelItems(p)[j - 1].JObj?
    ensures About(Validate(p).value, 2, j) == [RelIssue(j, NotObject)]
  {
    ValidateAboutRel(p, j);
    TagSpec(false, j, [NotObject]);
  }

  /** Which endpoint problems one relationship object draws: a `from`
      problem exactly for a non-empty undeclared `from` text, a `to` problem
      likewise, each at most once. */
  lemma RelProblemsEndpoints(r: Value, names: set<string>, x: string)
    requires r.JObj? && RelProblems(r, names).Success?
    ensures FromUnknown(x) in RelProblems(r, names).value <==>
            x == StrippedText(r.members, "from").value && x != "" && x !in names
    ensures ToUnknown(x) in RelProblems(r, names).value <==>
            x == StrippedText(r.members, "to").value && x != "" && x !in names
    ensures forall a, b :: 0 <= a < b < |RelProblems(r, names).value| ==>
              !(RelProblems(r, names).value[a].FromUnknown? && RelProblems(r, names).value[b].FromUnknown?)
              && !(RelProblems(r, names).value[a].ToUnknown? && RelProblems(r, names).value[b].ToUnknown?)
  {
    var miss := MissingFields(r.members, Schema.RelItemKeys);
    var f := StrippedText(r.members, "from").value;
    var t := StrippedText(r.members, "to").value;
    assert RelProblems(r, names).value == miss + FromPart(f, names) + ToPart(t, names);
    MissingFieldsSpec(r.members, Schema.RelItemKeys);
    EndpointLayout(miss, f, t, names, x);
  }

  lemma EndpointLayout(miss: seq<Problem>, f: string, t: string, names: set<string>, x: string)
    requires forall q :: q in miss ==> q.MissingField?
    ensures FromUnknown(x) in miss + FromPart(f, names) + ToPart(t, names) <==> x == f && x != "" && x !in names
    ensures ToUnknown(x) in miss + FromPart(f, names) + ToPart(t, names) <==> x == t && x != "" && x !in names
    ensures var ps := miss + FromPart(f, names) + ToPart(t, names);
            forall a, b :: 0 <= a < b < |ps| ==>
              !(ps[a].FromUnknown? && ps[b].FromUnknown?) && !(ps[a].ToUnknown? && ps[b].ToUnknown?)
  {
    var ps := miss + FromPart(f, names) + ToPart(t, names);
    assert forall a :: 0 <= a < |miss| ==> ps[a] == miss[a] && miss[a] in miss;
  }

  predicate IsFromProblem(e: Issue) {
    e.RelIssue? && e.problem.FromUnknown?
  }

  predicate IsToProblem(e: Issue) {
    e.RelIssue? && e.problem.ToUnknown?
  }

  /** A relationship endpoint that is non-empty after trimming and not a
      declared name draws one problem naming it and the item; an endpoint that
      is empty or declared draws none; no item draws two `from` or two `to`
      problems. */
  lemma UnknownEndpointReported(p: Members, j: nat, x: string)
    requires Validate(p).Success?
    requires 1 <= j <= |RelItems(p)| && RelItems(p)[j - 1].JObj?
    ensures StrippedText(RelItems(p)[j - 1].members, "from").Success?
    ensures StrippedText(RelItems(p)[j - 1].members, "to").Success?
    ensures RelIssue(j, FromUnknown(x)) in Validate(p).value <==>
            && x == StrippedText(RelItems(p)[j - 1].members, "from").value
            && x != "" && x !in NameSet(TechItems(p))
    ensures RelIssue(j, ToUnknown(x)) in Validate(p).value <==>
            && x == StrippedText(RelItems(p)[j - 1].members, "to").value
            && x != "" && x !in NameSet(TechItems(p))
    ensures forall a, b :: 0 <= a < b < |About(Validate(p).value, 2, j)| ==>
              !(IsFromProblem(About(Validate(p).value, 2, j)[a]) && IsFromProblem(About(Validate(p).value, 2, j)[b]))
              && !(IsToProblem(About(Validate(p).value, 2, j)[a]) && IsToProblem(About(Validate(p).value, 2, j)[b]))
  {
    ValidateAboutRel(p, j);
    var errs := Validate(p).value;
    var rel := RelItems(p)[j - 1];
    var names := NameSet(TechItems(p));
    var ps := RelProblems(rel, names).value;
    RelProblemsEndpoints(rel, names, x);
    TagEndpoints(j, ps, x);
    RelIssueIn(errs, j, ps, FromUnknown(x));
    RelIssueIn(errs, j, ps, ToUnknown(x));
  }

  /** A relationship problem is reported for item `j` exactly when it is
      among that item's problems. */
  lemma RelIssueIn(errs: seq<Issue>, j: nat, ps: seq<Problem>, q: Problem)
    requires About(errs, 2, j) == Tag(false, j, ps)
    ensures RelIssue(j, q) in errs <==> q in ps
  {
    AboutMembers(errs, 2, j, RelIssue(j, q));
    TagSpec(false, j, ps);
    if q in ps {
      var n :| 0 <= n < |ps| && ps[n] == q;
      assert Tag(false, j, ps)[n] == RelIssue(j, q);
    }
  }

  lemma TagEndpoints(j: nat, ps: seq<Problem>, x: string)
    requires forall a, b :: 0 <= a < b < |ps| ==>
               !(ps[a].FromUnknown? && ps[b].FromUnknown?) && !(ps[a].ToUnknown? && ps[b].ToUnknown?)
    ensures RelIssue(j, FromUnknown(x)) in Tag(false, j, ps) <==> FromUnknown(x) in ps
    ensures RelIssue(j, ToUnknown(x)) in Tag(false, j, ps) <==> ToUnknown(x) in ps
    ensures forall a, b :: 0 <= a < b < |Tag(false, j, ps)| ==>
              !(IsFromProblem(Tag(false, j, ps)[a]) && IsFromProblem(Tag(false, j, ps)[b]))
              && !(IsToProblem(Tag(false, j, ps)[a]) && IsToProblem(Tag(false, j, ps)[b]))
  {
    TagSpec(false, j, ps);
    if FromUnknown(x) in ps {
      var n :| 0 <= n < |ps| && ps[n] == FromUnknown(x);
      assert Tag(false, j, ps)[n] == RelIssue(j, FromUnknown(x));
    }
    if ToUnknown(x) in ps {
      var n :| 0 <= n < |ps| && ps[n] == ToUnknown(x);
      assert Tag(false, j, ps)[n] == RelIssue(j, ToUnknown(x));
    }
  }

  // ---------------------------------------------------------------------------
  // When the report is empty

  predicate TechConforms(t: Value) {
    && t.JObj?
    && (forall k :: k in Schema.TechItemKeys ==> Has(t.members, k))
    && (Has(t.members, "node_id") ==> IsPyInt(Find(t.members, "node_id").value))
  }

  /** An endpoint is fine when it is absent or false, or a string whose trimmed
      text is empty or a declared name. */
  predicate EndpointKnown(r: Members, key: string, names: set<string>) {
    var v := GetOr(r, key, JNull);
    !Truthy(v) || (v.JStr? && (Text.Trim(v.s) == "" || Text.Trim(v.s) in names))
  }

  predicate RelConforms(r: Value, names: set<string>) {
    && r.JObj?
    && (forall k :: k in Schema.RelItemKeys ==> Has(r.members, k))
    && EndpointKnown(r.members, "from", names)
    && EndpointKnown(r.members, "to", names)
  }

  /** The schema, stated independently of the checking order: all required
      keys present, both collections lists of objects with their item keys,
      integer ids, and every endpoint a declared name. */
  predicate Conforms(p: Members) {
    && (forall k :: k in Schema.RequiredKeys ==> Has(p, k))
    && GetOr(p, "technologies", JArr([])).JArr?
    && GetOr(p, "relationships", JArr([])).JArr?
    && (forall i :: 0 <= i < |TechItems(p)| ==> TechConforms(TechItems(p)[i]))
    && (forall j :: 0 <= j < |RelItems(p)| ==> RelConforms(RelItems(p)[j], NameSet(TechItems(p))))
  }

  lemma TechProblemsEmptyIff(t: Value)
    ensures TechProblems(t) == [] <==> TechConforms(t)
  {
    if t.JObj? {
      TechProblemsSpec(t);
      var ps := TechProblems(t);
      if ps != [] {
        assert ps[0] in ps;
      }
    }
  }

  lemma RelProblemsEmptyIff(r: Value, names: set<string>)
    requires RelProblems(r, names).Success?
    ensures RelProblems(r, names).value == [] <==> RelConforms(r, names)
  {
    if r.JObj? {
      var miss := MissingFields(r.members, Schema.RelItemKeys);
      var f := StrippedText(r.members, "from").value;
      var t := StrippedText(r.members, "to").value;
      assert RelProblems(r, names).value == miss + FromPart(f, names) + ToPart(t, names);
      MissingFieldsEmptyIff(r.members, Schema.RelItemKeys);
      EndpointKnownIff(r.members, "from", names);
      EndpointKnownIff(r.members, "to", names);
    }
  }

  lemma MissingFieldsEmptyIff(ms: Members, keys: seq<string>)
    ensures MissingFields(ms, keys) == [] <==> forall k :: k in keys ==> Has(ms, k)
  {
    MissingFieldsSpec(ms, keys);
    var missing := MissingFields(ms, keys);
    if missing != [] {
      assert missing[0] in missing;
    }
  }

  lemma EndpointKnownIff(r: Members, key: string, names: set<string>)
    requires StrippedText(r, key).Success?
    ensures EndpointKnown(r, key, names) <==> StrippedText(r, key).value == "" || StrippedText(r, key).value in names
  {
  }

  /** Numbered items report nothing exactly when every item's list is empty. */
  lemma {:induction false} TaggedEmptyIff(tech: bool, pss: seq<seq<Problem>>, first: nat)
    ensures Tagged(tech, pss, first) == [] <==> forall n :: 0 <= n < |pss| ==> pss[n] == []
    decreases |pss|
  {
    if pss != [] {
      TaggedEmptyIff(tech, pss[1..], first + 1);
      TagSpec(tech, first, pss[0]);
      assert Tagged(tech, pss, first) == Tag(tech, first, pss[0]) + Tagged(tech, pss[1..], first + 1);
      assert forall n :: 1 <= n < |pss| ==> pss[n] == pss[1..][n - 1];
    }
  }

  lemma TechIssuesEmptyIff(items: seq<Value>)
    ensures TechIssues(items) == [] <==> forall i :: 0 <= i < |items| ==> TechConforms(items[i])
  {
    TechListsSpec(items, 0);
    TaggedEmptyIff(true, TechLists(items), 1);
    forall i | 0 <= i < |items| ensures TechLists(items)[i] == [] <==> TechConforms(items[i]) {
      TechListsSpec(items, i);
      TechProblemsEmptyIff(items[i]);
    }
  }

  lemma RelIssuesEmptyIff(items: seq<Value>, names: set<string>)
    requires RelLists(items, names).Success?
    ensures Tagged(false, RelLists(items, names).value, 1) == [] <==> forall j :: 0 <= j < |items| ==> RelConforms(items[j], names)
  {
    var pss := RelLists(items, names).value;
    RelListsSpec(items, names, 0);
    TaggedEmptyIff(false, pss, 1);
    forall j | 0 <= j < |items| ensures pss[j] == [] <==> RelConforms(items[j], names) {
      RelListsSpec(items, names, j);
      RelProblemsEmptyIff(items[j], names);
    }
  }

  lemma TopIssuesEmptyIff(p: Members)
    ensures TopIssues(p) == [] <==> forall k :: k in Schema.RequiredKeys ==> Has(p, k)
  {
    TopIssuesSpec(p);
    var top := TopIssues(p);
    if top != [] {
      assert top[0] in top;
    }
  }

  lemma ReportEmptyIff(top: seq<Issue>, th: seq<Issue>, techs: seq<Issue>, rh: seq<Issue>, rels: seq<Issue>)
    ensures top + th + techs + rh + rels == [] <==> top == [] && th == [] && techs == [] && rh == [] && rels == []
  {
    if top + th + techs + rh + rels == [] {
      assert |top + th + techs + rh + rels| == |top| + |th| + |techs| + |rh| + |rels|;
    }
  }

  /** The validator reports nothing exactly when the payload conforms. */
  lemma ValidateOkIffConforms(p: Members)
    requires Validate(p).Success?
    ensures Validate(p).value == [] <==> Conforms(p)
  {
    ValidateParts(p);
    var rels := Tagged(false, RelLists(RelItems(p), NameSet(TechItems(p))).value, 1);
    ReportEmptyIff(TopIssues(p), TechHead(p), TechIssues(TechItems(p)), RelHead(p), rels);
    ConformsByParts(p);
  }

  /** The payload conforms exactly when each of the five parts of the
      report is empty. */
  lemma ConformsByParts(p: Members)
    requires RelLists(RelItems(p), NameSet(TechItems(p))).Success?
    ensures Conforms(p) <==>
              && TopIssues(p) == [] && TechHead(p) == [] && TechIssues(TechItems(p)) == [] && RelHead(p) == []
              && Tagged(false, RelLists(RelItems(p), NameSet(TechItems(p))).value, 1) == []
  {
    TopIssuesEmptyIff(p);
    TechIssuesEmptyIff(TechItems(p));
    RelIssuesEmptyIff(RelItems(p), NameSet(TechItems(p)));
  }

  /** The report is the five parts in order, the last one the tagged
      problems of the relationship items. */
  lemma ValidateParts(p: Members)
    requires Validate(p).Success?
    ensures RelLists(RelItems(p), NameSet(TechItems(p))).Success?
    ensures Validate(p).value == TopIssues(p) + TechHead(p) + TechIssues(TechItems(p)) + RelHead(p)
                                 + Tagged(false, RelLists(RelItems(p), NameSet(TechItems(p))).value, 1)
  {
  }

  /** The validator raises exactly when some relationship object has a true
      endpoint that is not a string (lines 140-141 call `.strip()` on it). */
  lemma ValidateFailsIff(p: Members)
    ensures Validate(p).Failure? <==>
            exists j :: 0 <= j < |RelItems(p)| && RelItems(p)[j].JObj? &&
              (StrippedText(RelItems(p)[j].members, "from").Failure? || StrippedText(RelItems(p)[j].members, "to").Failure?)
  {
    RelListsFailIff(RelItems(p), NameSet(TechItems(p)));
  }

  /** A top-level key is reported missing exactly when it is required and absent. */
  lemma MissingTopKeyReported(p: Members, k: string)
    requires Validate(p).Success?
    ensures MissingKey(k) in Validate(p).value <==> k in Schema.RequiredKeys && !Has(p, k)
  {
    ValidateShape(p);
    TopIssuesSpec(p);
    var pss := RelLists(RelItems(p), NameSet(TechItems(p))).value;
    KeyIssueIn(TopIssues(p), TechHead(p), TechIssues(TechItems(p)), RelHead(p), Tagged(false, pss, 1), MissingKey(k));
  }

  lemma KeyIssueIn(top: seq<Issue>, th: seq<Issue>, techs: seq<Issue>, rh: seq<Issue>, rels: seq<Issue>, e: Issue)
    requires Phased(top, th, techs, rh, rels) && e.MissingKey?
    ensures e in top + th + techs + rh + rels <==> e in top
  {
  }
}
