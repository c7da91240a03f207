/** Validating a payload after `normalize_payload` has repaired it (lines
    96-147 and 150-204 of diagram_chat.py). The repair names every true
    endpoint, except that it treats "All Services" as known while the
    validator does not: that name is the only endpoint the validator can
    still report as undeclared. */
module Recheck {
  import opened Wrappers
  import opened Json
  import opened Discovery
  import opened Repair
  import Normalize
  import Validate
  import Text

  /** After the pass each relationship is an object whose string endpoints
      are stripped. */
  lemma EndpointTrimmedAfterPass(rule: LabelRule, p: Members, arrange: seq<Value> -> seq<Value>, j: nat, key: string)
    requires Arranges(arrange) && Normalize.NormalizeWith(rule, p, arrange).Success?
    requires key == "from" || key == "to"
    ensures var rs := Normalize.ListAt(Normalize.NormalizeWith(rule, p, arrange).value, "relationships");
            j < |rs| ==>
              && rs[j].JObj?
              && (Endpoint(rs[j], key).JStr? ==> Text.IsTrimmed(Endpoint(rs[j], key).s))
  {
    Normalize.EndpointsNamed(rule, p, arrange, j, key);
    Normalize.RelationshipsKept(rule, p, arrange, j, key);
    var rs := Normalize.ListAt(Normalize.NormalizeWith(rule, p, arrange).value, "relationships");
    if j < |rs| {
      var rs0 := Normalize.ListAt(p, "relationships");
      assert rs0[j].JObj?;
      assert key in RelTrimKeys;
    }
  }

  /** `r` is an object whose `key` text, as the validator reads it, is
      empty, "All Services", or among `names`, unless reading it raises. */
  predicate Settled(r: Value, key: string, names: set<string>) {
    && r.JObj?
    && (StrippedText(r.members, key).Success? && StrippedText(r.members, key).value != "" ==>
          StrippedText(r.members, key).value == AllServices || StrippedText(r.members, key).value in names)
  }

  /** The text the validator reads from a repaired endpoint, when not empty,
      is "All Services" or a name the validator collects. */
  lemma DeclaredOrAllServices(rule: LabelRule, p: Members, arrange: seq<Value> -> seq<Value>, q: Members, j: nat, key: string)
    requires Arranges(arrange) && Normalize.NormalizeWith(rule, p, arrange) == Success(q)
    requires key == "from" || key == "to"
    ensures var rs := Normalize.ListAt(q, "relationships");
            j < |rs| ==> Settled(rs[j], key, Validate.NameSet(Validate.TechItems(q)))
  {
    var rs := Normalize.ListAt(q, "relationships");
    Normalize.EndpointsNamed(rule, p, arrange, j, key);
    EndpointTrimmedAfterPass(rule, p, arrange, j, key);
    if j < |rs| {
      assert Validate.TechItems(q) == Normalize.ListAt(q, "technologies");
      TextDeclaredOrAllServices(rs[j], key, Normalize.ListAt(q, "technologies"));
    }
  }

  /** The same for one relationship object whose string endpoint is
      stripped and whose true endpoint is "All Services" or named by `ts`. */
  lemma TextDeclaredOrAllServices(r: Value, key: string, ts: seq<Value>)
    requires r.JObj?
    requires Endpoint(r, key).JStr? ==> Text.IsTrimmed(Endpoint(r, key).s)
    requires Truthy(Endpoint(r, key)) ==>
               PyEq(Endpoint(r, key), JStr(AllServices)) || Normalize.NamedBy(Endpoint(r, key), ts)
    ensures Settled(r, key, Validate.NameSet(ts))
  {
    var e := Endpoint(r, key);
    if StrippedText(r.members, key).Success? && StrippedText(r.members, key).value != "" {
      var x := StrippedText(r.members, key).value;
      assert e == JStr(x) by {
        assert Truthy(e) && e.JStr?;
        assert x == Text.Trim(e.s);
      }
      NameDeclaredOrAllServices(x, ts);
    }
  }

  lemma NameDeclaredOrAllServices(x: string, ts: seq<Value>)
    requires x != "" && Text.IsTrimmed(x)
    requires PyEq(JStr(x), JStr(AllServices)) || Normalize.NamedBy(JStr(x), ts)
    ensures x == AllServices || x in Validate.NameSet(ts)
  {
    if x != AllServices {
      NamedCollected(ts, x);
    }
  }

  /** A stripped, non-empty text equal to the name of a technology object is
      among the names the validator collects. */
  lemma NamedCollected(ts: seq<Value>, x: string)
    requires x != "" && Text.IsTrimmed(x) && Normalize.NamedBy(JStr(x), ts)
    ensures x in Validate.NameSet(ts)
  {
    var i :| 0 <= i < |ts| && ts[i].JObj? && Find(ts[i].members, "name").Some? &&
             PyEq(JStr(x), Find(ts[i].members, "name").value);
    assert Find(ts[i].members, "name").value == JStr(x);
    assert Validate.DeclaredName(ts[i]) == Some(x);
    Validate.NameSetSpec(ts, x);
  }

  /** Validating a repaired payload reports no undeclared endpoint other
      than "All Services", when it does not raise. */
  lemma OnlyAllServicesReported(rule: LabelRule, p: Members, arrange: seq<Value> -> seq<Value>, j: nat, x: string)
    requires Arranges(arrange) && Normalize.NormalizeWith(rule, p, arrange).Success?
    requires Validate.Validate(Normalize.NormalizeWith(rule, p, arrange).value).Success?
    requires 1 <= j <= |Validate.RelItems(Normalize.NormalizeWith(rule, p, arrange).value)|
    ensures var errs := Validate.Validate(Normalize.NormalizeWith(rule, p, arrange).value).value;
            && (Validate.RelIssue(j, Validate.FromUnknown(x)) in errs ==> x == AllServices)
            && (Validate.RelIssue(j, Validate.ToUnknown(x)) in errs ==> x == AllServices)
  {
    var q := Normalize.NormalizeWith(rule, p, arrange).value;
    OnlyAllServicesIn(rule, p, arrange, q, j, x);
  }

  lemma OnlyAllServicesIn(rule: LabelRule, p: Members, arrange: seq<Value> -> seq<Value>, q: Members, j: nat, x: string)
    requires Arranges(arrange) && Normalize.NormalizeWith(rule, p, arrange) == Success(q)
    requires Validate.Validate(q).Success? && 1 <= j <= |Validate.RelItems(q)|
    ensures Validate.RelIssue(j, Validate.FromUnknown(x)) in Validate.Validate(q).value ==> x == AllServices
    ensures Validate.RelIssue(j, Validate.ToUnknown(x)) in Validate.Validate(q).value ==> x == AllServices
  {
    BothSettled(rule, p, arrange, q, j - 1);
    SettledListReported(q, j, x);
  }

  lemma BothSettled(rule: LabelRule, p: Members, arrange: seq<Value> -> seq<Value>, q: Members, j: nat)
    requires Arranges(arrange) && Normalize.NormalizeWith(rule, p, arrange) == Success(q)
    ensures var rs := Normalize.ListAt(q, "relationships");
            j < |rs| ==>
              && Settled(rs[j], "from", Validate.NameSet(Validate.TechItems(q)))
              && Settled(rs[j], "to", Validate.NameSet(Validate.TechItems(q)))
  {
    DeclaredOrAllServices(rule, p, arrange, q, j, "from");
    DeclaredOrAllServices(rule, p, arrange, q, j, "to");
  }

  lemma SettledListReported(q: Members, j: nat, x: string)
    requires Validate.Validate(q).Success? && 1 <= j <= |Validate.RelItems(q)|
    requires var rs := Normalize.ListAt(q, "relationships");
             j - 1 < |rs| ==>
               && Settled(rs[j - 1], "from", Validate.NameSet(Validate.TechItems(q)))
               && Settled(rs[j - 1], "to", Validate.NameSet(Validate.TechItems(q)))
    ensures Validate.RelIssue(j, Validate.FromUnknown(x)) in Validate.Validate(q).value ==> x == AllServices
    ensures Validate.RelIssue(j, Validate.ToUnknown(x)) in Validate.Validate(q).value ==> x == AllServices
  {
    assert Validate.RelItems(q) == Normalize.ListAt(q, "relationships");
    ReportedOnlyIfAllServices(q, j, x);
  }

  /** When both endpoint texts of relationship `j` are empty, "All Services"
      or declared, no other name is reported for it. */
  lemma ReportedOnlyIfAllServices(q: Members, j: nat, x: string)
    requires Validate.Validate(q).Success? && 1 <= j <= |Validate.RelItems(q)|
    requires Settled(Validate.RelItems(q)[j - 1], "from", Validate.NameSet(Validate.TechItems(q)))
    requires Settled(Validate.RelItems(q)[j - 1], "to", Validate.NameSet(Validate.TechItems(q)))
    ensures Validate.RelIssue(j, Validate.FromUnknown(x)) in Validate.Validate(q).value ==> x == AllServices
    ensures Validate.RelIssue(j, Validate.ToUnknown(x)) in Validate.Validate(q).value ==> x == AllServices
  {
    Validate.UnknownEndpointReported(q, j, x);
  }

  // ---------------------------------------------------------------------------
  // "All Services" is still reported

  /** A relationship from "All Services" to nowhere, alone in a payload. */
  const AllServicesRel: Value := JObj([("from", JStr(AllServices))])
  const AllServicesPayload: Members := [("relationships", JArr([AllServicesRel]))]

  /** The repair pass leaves that payload as it is, apart from adding the
      default explanation. */
  lemma AllServicesPass(rule: LabelRule, arrange: seq<Value> -> seq<Value>)
    requires Arranges(arrange)
    ensures Normalize.NormalizeWith(rule, AllServicesPayload, arrange) ==
              Success(AllServicesPayload + [("explanation", JStr(DefaultExplanation))])
  {
    var p := AllServicesPayload;
    AllServicesScan();
    Normalize.EmptyArranged(arrange);
    assert AddNodes(p, arrange) == Success(p);
    assert RepairTechList(rule, p) == Success(p);
    AllServicesTrimmed();
  }

  lemma AllServicesScan()
    ensures Scan(AllServicesPayload) == Success(Survey([], []))
  {
    var r := AllServicesRel;
    FindAt(AllServicesPayload, "relationships", 0);
    FindAt(r.members, "from", 0);
    assert Endpoint(r, "from") == JStr(AllServices);
    assert Endpoint(r, "to") == JNull;
    assert Consider(JStr(AllServices), [], []) == Success([]);
    assert [r][1..] == [];
    assert Discover([r], [], []) == Success([]);
  }

  /** The relationship is already trimmed. */
  lemma AllServicesTrimmed()
    ensures TrimRelList(AllServicesPayload) == Success(AllServicesPayload)
  {
    var r := AllServicesRel;
    FindAt(AllServicesPayload, "relationships", 0);
    FindAt(r.members, "from", 0);
    FixedTextsTrimmed();
    assert FieldsTrimmed(r.members, RelTrimKeys);
    TrimFieldsTrimmed(r.members, RelTrimKeys);
    assert TrimRels([r]) == [r];
  }

  /** The validator still reports "All Services" as undeclared after the
      repair: the repair skips that name (line 156) and the validator has no
      such exception (lines 140-145). */
  lemma AllServicesReported(rule: LabelRule, arrange: seq<Value> -> seq<Value>)
    requires Arranges(arrange)
    ensures Normalize.NormalizeWith(rule, AllServicesPayload, arrange).Success?
    ensures var q := Normalize.NormalizeWith(rule, AllServicesPayload, arrange).value;
            && Validate.Validate(q).Success?
            && Validate.RelIssue(1, Validate.FromUnknown(AllServices)) in Validate.Validate(q).value
  {
    AllServicesPass(rule, arrange);
    var q := AllServicesPayload + [("explanation", JStr(DefaultExplanation))];
    AllServicesChecked(q);
  }

  lemma AllServicesChecked(q: Members)
    requires q == AllServicesPayload + [("explanation", JStr(DefaultExplanation))]
    ensures Validate.Validate(q).Success?
    ensures Validate.RelIssue(1, Validate.FromUnknown(AllServices)) in Validate.Validate(q).value
  {
    AllServicesRead(q);
    AllServicesEnds();
    LoneRelReported(q, AllServicesRel, AllServices);
  }

  /** The lists the validator reads from that payload once repaired. */
  lemma AllServicesRead(q: Members)
    requires q == AllServicesPayload + [("explanation", JStr(DefaultExplanation))]
    ensures Validate.RelItems(q) == [AllServicesRel] && Validate.TechItems(q) == []
  {
    FindAt(q, "relationships", 0);
    assert Find(q, "technologies") == None;
  }

  /** The endpoint texts the validator reads from the lone relationship. */
  lemma AllServicesEnds()
    ensures AllServicesRel.JObj?
    ensures StrippedText(AllServicesRel.members, "from") == Success(AllServices)
    ensures StrippedText(AllServicesRel.members, "to") == Success("")
  {
    FindAt(AllServicesRel.members, "from", 0);
    FixedTextsTrimmed();
  }

  /** A payload with no technologies and one relationship object whose
      endpoints read as the non-empty `x` and "" reports `x` as undeclared. */
  lemma LoneRelReported(q: Members, r: Value, x: string)
    requires Validate.RelItems(q) == [r] && Validate.TechItems(q) == [] && r.JObj?
    requires StrippedText(r.members, "from") == Success(x) && x != ""
    requires StrippedText(r.members, "to") == Success("")
    ensures Validate.Validate(q).Success?
    ensures Validate.RelIssue(1, Validate.FromUnknown(x)) in Validate.Validate(q).value
  {
    LoneRelChecked(q, r);
    LoneRelIssue(q, r, x);
  }

  /** Such a payload does not make the validator raise. */
  lemma LoneRelChecked(q: Members, r: Value)
    requires Validate.RelItems(q) == [r] && r.JObj?
    requires StrippedText(r.members, "from").Success? && StrippedText(r.members, "to").Success?
    ensures Validate.Validate(q).Success?
  {
    Validate.ValidateFailsIff(q);
  }

  lemma LoneRelIssue(q: Members, r: Value, x: string)
    requires Validate.Validate(q).Success?
    requires Validate.RelItems(q) == [r] && Validate.TechItems(q) == [] && r.JObj?
    requires StrippedText(r.members, "from") == Success(x) && x != ""
    ensures Validate.RelIssue(1, Validate.FromUnknown(x)) in Validate.Validate(q).value
  {
    assert Validate.NameSet([]) == {};
    Validate.UnknownEndpointReported(q, 1, x);
  }
}
