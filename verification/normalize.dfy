/** Lines 149-204 of diagram_chat.py, `normalize_payload`: the repair pass
    run on a decoded diagram payload.
    It adds a node for each relationship endpoint that no technology
    declares, renumbers the technologies 1..N, fills empty labels from the
    name, trims string fields, and supplies a default explanation. The
    source mutates its argument in place; here the repaired payload is a new
    value, and an exception the source would raise is a `Failure`. */
module Normalize {
  import opened Wrappers
  import opened Json
  import opened Discovery
  import opened Repair
  import Text

  // ---------------------------------------------------------------------------
  // How each stage changes the payload

  /** The value under `k` is a list. */
  predicate IsListAt(p: Members, k: string) {
    Find(p, k).Some? && Find(p, k).value.JArr?
  }

  /** The items of the list under `k`; none when the value is absent or not a list. */
  function ListAt(p: Members, k: string): seq<Value> {
    if IsListAt(p, k) then Find(p, k).value.items else []
  }

  /** Lines 152-169 change only the technologies list, and only by appending
      one node per extra name, the extra names being exactly the unknown
      endpoints found, each once. */
  lemma AddNodesAt(p: Members, arrange: seq<Value> -> seq<Value>, k: string)
    requires Arranges(arrange) && AddNodes(p, arrange).Success?
    ensures Scan(p).Success?
    ensures var s := Scan(p).value;
            var ex := Extras(arrange(s.found), s.names);
            && (forall x :: x in ex <==> x in s.found)
            && SetLike(ex)
            && (ex == [] ==> AddNodes(p, arrange).value == p)
            && (ex != [] ==> IsListAt(p, "technologies"))
            && (ex != [] ==> Find(AddNodes(p, arrange).value, "technologies") == Some(JArr(Appended(ListAt(p, "technologies"), ex))))
            && (k != "technologies" ==> Find(AddNodes(p, arrange).value, k) == Find(p, k))
  {
    var s := Scan(p).value;
    ScanSpec(p);
    ExtrasAreFound(arrange(s.found), s.names, s.found);
  }

  /** Lines 152-169 touch no key but the technologies, whatever the order of
      the extra nodes. */
  lemma AddNodesElsewhere(p: Members, arrange: seq<Value> -> seq<Value>, k: string)
    requires AddNodes(p, arrange).Success? && k != "technologies"
    ensures Find(AddNodes(p, arrange).value, k) == Find(p, k)
  {
  }

  /** Lines 152-169 on the technologies list: a list gets the extra nodes
      appended; anything else is left alone, and then there are none. */
  lemma AddNodesTechs(p: Members, arrange: seq<Value> -> seq<Value>)
    requires AddNodes(p, arrange).Success?
    ensures Scan(p).Success?
    ensures var s := Scan(p).value;
            var ex := Extras(arrange(s.found), s.names);
            && (IsListAt(p, "technologies") ==>
                  IsListAt(AddNodes(p, arrange).value, "technologies") &&
                  ListAt(AddNodes(p, arrange).value, "technologies") == Appended(ListAt(p, "technologies"), ex))
            && (!IsListAt(p, "technologies") ==> ex == [] && AddNodes(p, arrange).value == p)
  {
  }

  /** Lines 171-188 change only the technologies list, item by item. */
  lemma RepairTechListAt(rule: LabelRule, p: Members, k: string)
    requires RepairTechList(rule, p).Success?
    ensures !IsListAt(p, "technologies") ==> RepairTechList(rule, p).value == p
    ensures IsListAt(p, "technologies") ==> RepairTechs(rule, ListAt(p, "technologies"), 1).Success?
    ensures IsListAt(p, "technologies") ==>
              Find(RepairTechList(rule, p).value, "technologies") == Some(JArr(RepairTechs(rule, ListAt(p, "technologies"), 1).value))
    ensures k != "technologies" ==> Find(RepairTechList(rule, p).value, k) == Find(p, k)
  {
  }

  /** Lines 191-200 change only the relationships list, item by item. */
  lemma TrimRelListAt(p: Members, k: string)
    requires TrimRelList(p).Success?
    ensures !IsListAt(p, "relationships") ==> TrimRelList(p).value == p
    ensures IsListAt(p, "relationships") ==>
              Find(TrimRelList(p).value, "relationships") == Some(JArr(TrimRels(ListAt(p, "relationships"))))
    ensures k != "relationships" ==> Find(TrimRelList(p).value, k) == Find(p, k)
  {
  }

  /** The payload after each stage of a successful pass. */
  lemma Stages(rule: LabelRule, p: Members, arrange: seq<Value> -> seq<Value>) returns (p1: Members, p2: Members, p3: Members)
    requires NormalizeWith(rule, p, arrange).Success?
    ensures AddNodes(p, arrange) == Success(p1)
    ensures RepairTechList(rule, p1) == Success(p2)
    ensures TrimRelList(p2) == Success(p3)
    ensures NormalizeWith(rule, p, arrange).value == WithExplanation(p3)
  {
    p1 := AddNodes(p, arrange).value;
    p2 := RepairTechList(rule, p1).value;
    p3 := TrimRelList(p2).value;
  }

  // ---------------------------------------------------------------------------
  // The whole pass

  /** `normalize_payload` on a dict, deciding missing labels by `rule` and
      iterating the extra nodes in the order `arrange` gives. */
  function NormalizeWith(rule: LabelRule, p: Members, arrange: seq<Value> -> seq<Value>): Result<Members, PyError> {
    var p1 :- AddNodes(p, arrange);
    var p2 :- RepairTechList(rule, p1);
    var p3 :- TrimRelList(p2);
    Success(WithExplanation(p3))
  }

  /** The technologies list after the whole pass, in terms of the list after
      the extra nodes are appended. */
  lemma FinalTechs(rule: LabelRule, p: Members, arrange: seq<Value> -> seq<Value>) returns (p1: Members)
    requires NormalizeWith(rule, p, arrange).Success?
    ensures AddNodes(p, arrange) == Success(p1)
    ensures IsListAt(NormalizeWith(rule, p, arrange).value, "technologies") == IsListAt(p1, "technologies")
    ensures IsListAt(p1, "technologies") ==> RepairTechs(rule, ListAt(p1, "technologies"), 1).Success?
    ensures IsListAt(p1, "technologies") ==>
              ListAt(NormalizeWith(rule, p, arrange).value, "technologies") == RepairTechs(rule, ListAt(p1, "technologies"), 1).value
    ensures !IsListAt(p1, "technologies") ==>
              Find(NormalizeWith(rule, p, arrange).value, "technologies") == Find(p1, "technologies")
  {
    var p2, p3;
    p1, p2, p3 := Stages(rule, p, arrange);
    RepairTechListAt(rule, p1, "technologies");
    TrimRelListAt(p2, "technologies");
    WithExplanationAt(p3, "technologies");
  }

  /** The technologies list after the whole pass, in terms of the input:
      the input list with the extra nodes appended, then repaired. */
  lemma FinalTechsOf(rule: LabelRule, p: Members, arrange: seq<Value> -> seq<Value>)
    requires NormalizeWith(rule, p, arrange).Success?
    ensures AddNodes(p, arrange).Success? && Scan(p).Success?
    ensures var s := Scan(p).value;
            var ex := Extras(arrange(s.found), s.names);
            var ts := ListAt(p, "technologies");
            var q := NormalizeWith(rule, p, arrange).value;
            && (!IsListAt(p, "technologies") ==> ex == [] && !IsListAt(q, "technologies"))
            && (IsListAt(p, "technologies") ==>
                  && RepairTechs(rule, Appended(ts, ex), 1).Success?
                  && ListAt(q, "technologies") == RepairTechs(rule, Appended(ts, ex), 1).value)
  {
    var p1 := FinalTechs(rule, p, arrange);
    AddNodesTechs(p, arrange);
  }

  /** Repairing a list with nodes appended repairs each original item at its
      own position. */
  lemma PrefixRepaired(rule: LabelRule, ts: seq<Value>, ex: seq<Value>, i: nat)
    requires RepairTechs(rule, Appended(ts, ex), 1).Success? && i < |ts|
    ensures RepairTech(rule, ts[i], 1 + i).Success?
    ensures i < |RepairTechs(rule, Appended(ts, ex), 1).value|
    ensures RepairTechs(rule, Appended(ts, ex), 1).value[i] == RepairTech(rule, ts[i], 1 + i).value
  {
    var us := Appended(ts, ex);
    AppendedSpec(ts, ex);
    assert us[i] == us[..|ts|][i];
    RepairTechsAt(rule, us, i, 1 + i);
  }

  /** The relationships list after the whole pass. */
  lemma FinalRels(rule: LabelRule, p: Members, arrange: seq<Value> -> seq<Value>)
    requires NormalizeWith(rule, p, arrange).Success?
    ensures IsListAt(NormalizeWith(rule, p, arrange).value, "relationships") == IsListAt(p, "relationships")
    ensures ListAt(NormalizeWith(rule, p, arrange).value, "relationships") == TrimRels(ListAt(p, "relationships"))
    ensures !IsListAt(p, "relationships") ==>
              Find(NormalizeWith(rule, p, arrange).value, "relationships") == Find(p, "relationships")
  {
    var p1, p2, p3 := Stages(rule, p, arrange);
    AddNodesElsewhere(p, arrange, "relationships");
    RepairTechListAt(rule, p1, "relationships");
    TrimRelListAt(p2, "relationships");
    WithExplanationAt(p3, "relationships");
  }

  /** After the pass, every technology object's `node_id` is its 1-based
      position, whatever it held before (lines 167, 173-176). */
  lemma NodeIdsArePositions(rule: LabelRule, p: Members, arrange: seq<Value> -> seq<Value>, i: nat)
    requires NormalizeWith(rule, p, arrange).Success?
    ensures var xs := ListAt(NormalizeWith(rule, p, arrange).value, "technologies");
            i < |xs| && xs[i].JObj? ==> Find(xs[i].members, "node_id") == Some(JInt(1 + i))
  {
    var xs := ListAt(NormalizeWith(rule, p, arrange).value, "technologies");
    if i < |xs| && xs[i].JObj? {
      var p1 := FinalTechs(rule, p, arrange);
      assert IsListAt(p1, "technologies");
      var us := ListAt(p1, "technologies");
      RepairTechsAt(rule, us, i, 1 + i);
      assert xs[i] == RepairTech(rule, us[i], 1 + i).value;
      assert us[i].JObj?;
      RepairTechAt(rule, us[i], 1 + i, "node_id");
    }
  }

  /** The original technologies come first, in their order, each repaired at
      its own position (lines 163, 173-188). */
  lemma OriginalsComeFirst(rule: LabelRule, p: Members, arrange: seq<Value> -> seq<Value>, i: nat)
    requires NormalizeWith(rule, p, arrange).Success?
    requires IsListAt(p, "technologies") && i < |ListAt(p, "technologies")|
    ensures var xs := ListAt(NormalizeWith(rule, p, arrange).value, "technologies");
            var ts := ListAt(p, "technologies");
            && i < |xs|
            && RepairTech(rule, ts[i], 1 + i).Success?
            && xs[i] == RepairTech(rule, ts[i], 1 + i).value
  {
    FinalTechsOf(rule, p, arrange);
    var s := Scan(p).value;
    PrefixRepaired(rule, ListAt(p, "technologies"), Extras(arrange(s.found), s.names), i);
  }

  /** The pass appends exactly one node per extra name (lines 159-169). */
  lemma ExtraNodesCount(rule: LabelRule, p: Members, arrange: seq<Value> -> seq<Value>)
    requires NormalizeWith(rule, p, arrange).Success?
    ensures Scan(p).Success?
    ensures var s := Scan(p).value;
            var ex := Extras(arrange(s.found), s.names);
            IsListAt(p, "technologies") ==>
              |ListAt(NormalizeWith(rule, p, arrange).value, "technologies")| == |ListAt(p, "technologies")| + |ex|
  {
    FinalTechsOf(rule, p, arrange);
    var s := Scan(p).value;
    var ex := Extras(arrange(s.found), s.names);
    if IsListAt(p, "technologies") {
      AppendedRepaired(rule, ListAt(p, "technologies"), ex, |ex|);
    }
  }

  /** The names lines 159-169 append a node for, in the order they are
      appended; none when line 152 or 155 raises. */
  function ExtraNames(p: Members, arrange: seq<Value> -> seq<Value>): seq<Value> {
    match Scan(p)
    case Success(s) => Extras(arrange(s.found), s.names)
    case Failure(_) => []
  }

  /** The extra nodes come after the originals, in the order of the extra
      names, each with the shape of the node for its name (lines 159-169). */
  lemma ExtraNodeAt(rule: LabelRule, p: Members, arrange: seq<Value> -> seq<Value>, k: nat)
    requires Arranges(arrange) && NormalizeWith(rule, p, arrange).Success?
    requires k < |ExtraNames(p, arrange)|
    ensures |ListAt(p, "technologies")| + k < |ListAt(NormalizeWith(rule, p, arrange).value, "technologies")|
    ensures ExternalShape(ListAt(NormalizeWith(rule, p, arrange).value, "technologies")[|ListAt(p, "technologies")| + k],
                          ExtraNames(p, arrange)[k])
  {
    FinalTechsOf(rule, p, arrange);
    ExtraTruthy(p, arrange, k);
    var s := Scan(p).value;
    var ex := Extras(arrange(s.found), s.names);
    var q := NormalizeWith(rule, p, arrange).value;
    var ts := ListAt(p, "technologies");
    var xs := ListAt(q, "technologies");
    ShapeAt(rule, ts, ex, xs, k);
    assert ex == ExtraNames(p, arrange);
    assert ExternalShape(xs[|ts| + k], ex[k]);
  }

  /** `xs`, the repaired list with nodes appended, has the node for `ex[k]`
      after the originals and the `k` nodes before it. */
  lemma ShapeAt(rule: LabelRule, ts: seq<Value>, ex: seq<Value>, xs: seq<Value>, k: nat)
    requires RepairTechs(rule, Appended(ts, ex), 1).Success? && xs == RepairTechs(rule, Appended(ts, ex), 1).value
    ensures k < |ex| && Truthy(ex[k]) ==> |ts| + k < |xs| && ExternalShape(xs[|ts| + k], ex[k])
  {
    AppendedRepaired(rule, ts, ex, k);
  }

  /** Each extra name is a true endpoint of some relationship, hashable,
      declared by no technology and not "All Services" (lines 152-157). */
  lemma ExtraNamesUnknown(p: Members, arrange: seq<Value> -> seq<Value>, k: nat)
    requires Arranges(arrange) && AddNodes(p, arrange).Success?
    ensures Scan(p).Success?
    ensures var s := Scan(p).value;
            var ex := Extras(arrange(s.found), s.names);
            k < |ex| ==>
              && Unknown(ex[k], s.names) && Hashable(ex[k])
              && EndpointOf(ex[k], Iterate(GetOr(p, "relationships", JArr([]))).value)
  {
    AddNodesAt(p, arrange, "technologies");
    ScanSpec(p);
    var s := Scan(p).value;
    var rels := Iterate(GetOr(p, "relationships", JArr([]))).value;
    DiscoverSpec(rels, s.names, []);
    var ex := Extras(arrange(s.found), s.names);
    if k < |ex| {
      assert ex[k] in s.found;
    }
  }

  /** Each extra name is true in Python's sense. */
  lemma ExtraTruthy(p: Members, arrange: seq<Value> -> seq<Value>, k: nat)
    requires Arranges(arrange) && AddNodes(p, arrange).Success?
    ensures Scan(p).Success?
    ensures var s := Scan(p).value;
            var ex := Extras(arrange(s.found), s.names);
            k < |ex| ==> Truthy(ex[k])
  {
    ExtraNamesUnknown(p, arrange, k);
  }

  /** A declared name is the name of some object in the technologies list. */
  lemma DeclaredAt(p: Members, n: Value) returns (i: nat)
    requires Scan(p).Success? && n in Scan(p).value.names
    ensures IsListAt(p, "technologies") && i < |ListAt(p, "technologies")|
    ensures Declares(ListAt(p, "technologies")[i], n)
  {
    ScanSpec(p);
    var ts := Iterate(GetOr(p, "technologies", JArr([]))).value;
    DeclaredNamesSpec(ts);
    assert n in DeclaredNames(ts).value;
    i :| 0 <= i < |ts| && Declares(ts[i], n);
    if !IsListAt(p, "technologies") {
      assert false;
    }
  }

  /** `e` equals, in Python's sense, the name of one of the technology objects `ts`. */
  predicate NamedBy(e: Value, ts: seq<Value>) {
    exists i :: 0 <= i < |ts| && ts[i].JObj? && Find(ts[i].members, "name").Some? && PyEq(e, Find(ts[i].members, "name").value)
  }

  /** After the pass, every relationship is an object, and each of its true
      endpoints is "All Services" or the name of some technology, compared
      as the source compares them, after both were stripped. */
  lemma EndpointsNamed(rule: LabelRule, p: Members, arrange: seq<Value> -> seq<Value>, j: nat, key: string)
    requires Arranges(arrange) && NormalizeWith(rule, p, arrange).Success?
    requires key == "from" || key == "to"
    ensures var q := NormalizeWith(rule, p, arrange).value;
            var rs := ListAt(q, "relationships");
            j < |rs| ==>
              && rs[j].JObj?
              && (Truthy(Endpoint(rs[j], key)) ==>
                    && Hashable(Endpoint(rs[j], key))
                    && (PyEq(Endpoint(rs[j], key), JStr(AllServices)) || NamedBy(Endpoint(rs[j], key), ListAt(q, "technologies"))))
  {
    FinalRels(rule, p, arrange);
    var q := NormalizeWith(rule, p, arrange).value;
    var rs0 := ListAt(p, "relationships");
    if j < |rs0| {
      ScanSpec(p);
      var s := Scan(p).value;
      assert Iterate(GetOr(p, "relationships", JArr([]))).value == rs0;
      var r := rs0[j];
      var e := Endpoint(r, key);
      var rs := ListAt(q, "relationships");
      assert rs[j] == TrimRel(r);
      EndpointTrimmed(r, key);
      var e' := Endpoint(rs[j], key);
      assert e' == TrimIfStr(e);
      if Truthy(e') {
        assert Truthy(e);
        CoveredNamed(rule, p, arrange, e);
      }
    }
  }

  /** A true endpoint the scan covers is, once stripped, "All Services" or
      the name of a technology after the pass. */
  lemma CoveredNamed(rule: LabelRule, p: Members, arrange: seq<Value> -> seq<Value>, e: Value)
    requires Arranges(arrange) && NormalizeWith(rule, p, arrange).Success?
    requires Scan(p).Success? && Truthy(e) && Covered(e, Scan(p).value.names, Scan(p).value.found)
    ensures PyEq(TrimIfStr(e), JStr(AllServices)) || NamedBy(TrimIfStr(e), ListAt(NormalizeWith(rule, p, arrange).value, "technologies"))
  {
    var s := Scan(p).value;
    if PyEq(e, JStr(AllServices)) {
      FixedTextsTrimmed();
      PyEqTrimmed(e, JStr(AllServices));
    } else if PyIn(e, s.names) {
      NamedDeclared(rule, p, arrange, e);
    } else {
      NamedExtra(rule, p, arrange, e);
    }
  }

  /** An endpoint equal to a declared name is named by that technology after the pass. */
  lemma NamedDeclared(rule: LabelRule, p: Members, arrange: seq<Value> -> seq<Value>, e: Value)
    requires NormalizeWith(rule, p, arrange).Success?
    requires PyIn(e, Scan(p).value.names)
    ensures NamedBy(TrimIfStr(e), ListAt(NormalizeWith(rule, p, arrange).value, "technologies"))
  {
    var s := Scan(p).value;
    var a :| 0 <= a < |s.names| && PyEq(e, s.names[a]);
    var n := s.names[a];
    var i := DeclaredAt(p, n);
    var ts := ListAt(p, "technologies");
    OriginalsComeFirst(rule, p, arrange, i);
    var xs := ListAt(NormalizeWith(rule, p, arrange).value, "technologies");
    RepairTechAt(rule, ts[i], 1 + i, "name");
    PyEqTrimmed(e, n);
    assert xs[i].JObj? && Find(xs[i].members, "name") == Some(TrimIfStr(n));
  }

  /** An unknown endpoint is named by its appended node after the pass. */
  lemma NamedExtra(rule: LabelRule, p: Members, arrange: seq<Value> -> seq<Value>, e: Value)
    requires Arranges(arrange) && NormalizeWith(rule, p, arrange).Success?
    requires PyIn(e, Scan(p).value.found)
    ensures NamedBy(TrimIfStr(e), ListAt(NormalizeWith(rule, p, arrange).value, "technologies"))
  {
    var s := Scan(p).value;
    var b :| 0 <= b < |s.found| && PyEq(e, s.found[b]);
    var x := s.found[b];
    AddNodesAt(p, arrange, "technologies");
    var ex := Extras(arrange(s.found), s.names);
    assert x in ex;
    var k :| 0 <= k < |ex| && ex[k] == x;
    ExtraNodeAt(rule, p, arrange, k);
    PyEqTrimmed(e, x);
  }

  /** The relationships keep their number and order; each object has its
      `from`, `to` and `type` stripped when strings and nothing else changed
      (lines 191-200). */
  lemma RelationshipsKept(rule: LabelRule, p: Members, arrange: seq<Value> -> seq<Value>, j: nat, k: string)
    requires NormalizeWith(rule, p, arrange).Success?
    ensures var rs := ListAt(NormalizeWith(rule, p, arrange).value, "relationships");
            var rs0 := ListAt(p, "relationships");
            && |rs| == |rs0|
            && (j < |rs0| && rs0[j].JObj? ==>
                  rs[j].JObj? && Find(rs[j].members, k) == if k in RelTrimKeys then TrimmedAt(rs0[j].members, k) else Find(rs0[j].members, k))
            && (j < |rs0| && !rs0[j].JObj? ==> rs[j] == rs0[j])
  {
    FinalRels(rule, p, arrange);
    var rs0 := ListAt(p, "relationships");
    if j < |rs0| && rs0[j].JObj? {
      TrimRelAt(rs0[j], k);
    }
  }

  /** The explanation is replaced by the default exactly when it is absent or
      not a string (lines 203-204). */
  lemma ExplanationDefaulted(rule: LabelRule, p: Members, arrange: seq<Value> -> seq<Value>)
    requires NormalizeWith(rule, p, arrange).Success?
    ensures Find(NormalizeWith(rule, p, arrange).value, "explanation") ==
              if Find(p, "explanation").Some? && Find(p, "explanation").value.JStr? then Find(p, "explanation")
              else Some(JStr(DefaultExplanation))
  {
    var p1, p2, p3 := Stages(rule, p, arrange);
    AddNodesElsewhere(p, arrange, "explanation");
    RepairTechListAt(rule, p1, "explanation");
    TrimRelListAt(p2, "explanation");
    WithExplanationAt(p3, "explanation");
  }

  /** Every other top-level key keeps its value. */
  lemma OtherKeysKept(rule: LabelRule, p: Members, arrange: seq<Value> -> seq<Value>, k: string)
    requires NormalizeWith(rule, p, arrange).Success?
    requires k != "technologies" && k != "relationships" && k != "explanation"
    ensures Find(NormalizeWith(rule, p, arrange).value, k) == Find(p, k)
  {
    var p1, p2, p3 := Stages(rule, p, arrange);
    AddNodesElsewhere(p, arrange, k);
    RepairTechListAt(rule, p1, k);
    TrimRelListAt(p2, k);
    WithExplanationAt(p3, k);
  }

  // ---------------------------------------------------------------------------
  // Running the pass again

  /** An arrangement of no elements is empty. */
  lemma EmptyArranged(arrange: seq<Value> -> seq<Value>)
    requires Arranges(arrange)
    ensures arrange([]) == []
  {
    assert |arrange([])| == 0;
  }

  /** A value that equals the name of a technology object is in the set of
      declared names. */
  lemma NamedIsDeclared(ts: seq<Value>, e: Value)
    requires DeclaredNames(ts).Success? && NamedBy(e, ts)
    ensures PyIn(e, DeclaredNames(ts).value)
  {
    DeclaredNamesSpec(ts);
    var names := DeclaredNames(ts).value;
    var i :| 0 <= i < |ts| && ts[i].JObj? && Find(ts[i].members, "name").Some? && PyEq(e, Find(ts[i].members, "name").value);
    var v := Find(ts[i].members, "name").value;
    assert Declares(ts[i], v);
    assert v in names;
    var k :| 0 <= k < |names| && names[k] == v;
    assert PyEq(e, names[k]);
  }

  /** `t`, when a technology object, has a name that can go in a set. */
  predicate NameHashable(t: Value) {
    t.JObj? ==> Has(t.members, "name") && Hashable(Find(t.members, "name").value)
  }

  /** Every technology object left by the pass has a name that can go in a
      set: an original keeps its name, stripped, and an appended node is
      named by a hashable endpoint. */
  lemma NameHashableAt(rule: LabelRule, p: Members, arrange: seq<Value> -> seq<Value>, q: Members, i: nat)
    requires Arranges(arrange) && NormalizeWith(rule, p, arrange) == Success(q)
    requires i < |ListAt(q, "technologies")|
    ensures NameHashable(ListAt(q, "technologies")[i])
  {
    var ts := ListAt(p, "technologies");
    var xs := ListAt(q, "technologies");
    TechsWereList(rule, p, arrange, q);
    if i < |ts| {
      OriginalNameHashable(rule, p, arrange, q, i);
    } else {
      var k := i - |ts|;
      ExtraNamesCover(rule, p, arrange, q);
      ExtraNameHashable(rule, p, arrange, q, k);
      assert xs[|ts| + k] == xs[i];
    }
  }

  /** A pass that leaves technologies to iterate started from a list. */
  lemma TechsWereList(rule: LabelRule, p: Members, arrange: seq<Value> -> seq<Value>, q: Members)
    requires NormalizeWith(rule, p, arrange) == Success(q)
    ensures ListAt(q, "technologies") != [] ==> IsListAt(p, "technologies")
  {
    FinalTechsOf(rule, p, arrange);
  }

  /** The list after the pass holds the originals and one node per extra name. */
  lemma ExtraNamesCover(rule: LabelRule, p: Members, arrange: seq<Value> -> seq<Value>, q: Members)
    requires NormalizeWith(rule, p, arrange) == Success(q)
    ensures IsListAt(p, "technologies") ==>
              |ListAt(q, "technologies")| == |ListAt(p, "technologies")| + |ExtraNames(p, arrange)|
  {
    ExtraNodesCount(rule, p, arrange);
  }

  /** The node appended for an extra name is named by that hashable name, stripped. */
  lemma ExtraNameHashable(rule: LabelRule, p: Members, arrange: seq<Value> -> seq<Value>, q: Members, k: nat)
    requires Arranges(arrange) && NormalizeWith(rule, p, arrange) == Success(q)
    requires k < |ExtraNames(p, arrange)|
    ensures |ListAt(p, "technologies")| + k < |ListAt(q, "technologies")|
    ensures NameHashable(ListAt(q, "technologies")[|ListAt(p, "technologies")| + k])
  {
    ExtraNamesUnknown(p, arrange, k);
    ExtraNodeAt(rule, p, arrange, k);
  }

  /** An original technology object keeps a hashable name through the pass. */
  lemma OriginalNameHashable(rule: LabelRule, p: Members, arrange: seq<Value> -> seq<Value>, q: Members, i: nat)
    requires NormalizeWith(rule, p, arrange) == Success(q)
    requires IsListAt(p, "technologies") && i < |ListAt(p, "technologies")|
    ensures i < |ListAt(q, "technologies")|
    ensures NameHashable(ListAt(q, "technologies")[i])
  {
    var ts := ListAt(p, "technologies");
    OriginalsComeFirst(rule, p, arrange, i);
    if ts[i].JObj? {
      ScanSpec(p);
      assert Iterate(GetOr(p, "technologies", JArr([]))).value == ts;
      assert Has(ts[i].members, "name") && Hashable(Find(ts[i].members, "name").value);
      RepairTechAt(rule, ts[i], 1 + i, "name");
    }
  }

  /** The technologies the second pass iterates: the repaired list, or a
      value without objects that iterates as before. */
  lemma TechsAfterPass(rule: LabelRule, p: Members, arrange: seq<Value> -> seq<Value>)
    requires Arranges(arrange) && NormalizeWith(rule, p, arrange).Success?
    ensures var q := NormalizeWith(rule, p, arrange).value;
            var tv := GetOr(q, "technologies", JArr([]));
            && Iterate(tv).Success?
            && NamesHashable(Iterate(tv).value)
            && (IsListAt(q, "technologies") ==> Iterate(tv).value == ListAt(q, "technologies"))
  {
    var q := NormalizeWith(rule, p, arrange).value;
    var tv := GetOr(q, "technologies", JArr([]));
    var p1 := FinalTechs(rule, p, arrange);
    if IsListAt(q, "technologies") {
      forall i | 0 <= i < |ListAt(q, "technologies")|
        ensures NameHashable(ListAt(q, "technologies")[i])
      {
        NameHashableAt(rule, p, arrange, q, i);
      }
    } else {
      var p2, p3;
      p1, p2, p3 := Stages(rule, p, arrange);
      assert Iterate(tv).Success?;
      assert forall x :: x in Iterate(tv).value ==> x.JStr?;
    }
  }

  /** The relationships the second pass iterates are the repaired list: a
      value that is not a list passed the first scan only by being empty. */
  lemma RelsAfterPass(rule: LabelRule, p: Members, arrange: seq<Value> -> seq<Value>)
    requires NormalizeWith(rule, p, arrange).Success?
    ensures var q := NormalizeWith(rule, p, arrange).value;
            Iterate(GetOr(q, "relationships", JArr([]))) == Success(ListAt(q, "relationships"))
  {
    var q := NormalizeWith(rule, p, arrange).value;
    FinalRels(rule, p, arrange);
    if !IsListAt(q, "relationships") {
      var p1, p2, p3 := Stages(rule, p, arrange);
      ScanSpec(p);
      var v := Iterate(GetOr(p, "relationships", JArr([]))).value;
      assert forall x :: x in v ==> x.JStr?;
      assert EndpointsHashable(v);
      if v != [] {
        assert false;
      }
    }
  }

  /** The second scan finds every true endpoint declared or "All Services":
      `q` is the repaired payload and `names` the names its technologies
      declare. */
  lemma KnownAfterPass(rule: LabelRule, p: Members, arrange: seq<Value> -> seq<Value>, q: Members,
                       ts: seq<Value>, names: seq<Value>, j: nat, key: string)
    requires Arranges(arrange) && NormalizeWith(rule, p, arrange) == Success(q)
    requires Iterate(GetOr(q, "technologies", JArr([]))) == Success(ts) && DeclaredNames(ts) == Success(names)
    requires key == "from" || key == "to"
    ensures j < |ListAt(q, "relationships")| ==>
              var r := ListAt(q, "relationships")[j];
              r.JObj? && !Unknown(Endpoint(r, key), names)
  {
    TechsAfterPass(rule, p, arrange);
    EndpointsNamed(rule, p, arrange, j, key);
    var rs := ListAt(q, "relationships");
    if j < |rs| {
      var e := Endpoint(rs[j], key);
      if Truthy(e) && !PyEq(e, JStr(AllServices)) {
        assert NamedBy(e, ListAt(q, "technologies"));
        assert IsListAt(q, "technologies");
        NamedIsDeclared(ts, e);
      }
    }
  }

  /** A second scan succeeds and finds no endpoint left to add. */
  lemma ScanAfterPass(rule: LabelRule, p: Members, arrange: seq<Value> -> seq<Value>)
    requires Arranges(arrange) && NormalizeWith(rule, p, arrange).Success?
    ensures var q := NormalizeWith(rule, p, arrange).value;
            Scan(q).Success? && Scan(q).value.found == []
  {
    var q := NormalizeWith(rule, p, arrange).value;
    TechsAfterPass(rule, p, arrange);
    RelsAfterPass(rule, p, arrange);
    var ts := Iterate(GetOr(q, "technologies", JArr([]))).value;
    DeclaredNamesSpec(ts);
    var names := DeclaredNames(ts).value;
    var rels := ListAt(q, "relationships");
    forall j | 0 <= j < |rels|
      ensures rels[j].JObj?
      ensures Truthy(Endpoint(rels[j], "from")) ==> Hashable(Endpoint(rels[j], "from"))
      ensures Truthy(Endpoint(rels[j], "to")) ==> Hashable(Endpoint(rels[j], "to"))
    {
      EndpointsNamed(rule, p, arrange, j, "from");
      EndpointsNamed(rule, p, arrange, j, "to");
    }
    DiscoverSpec(rels, names, []);
    var found := Discover(rels, names, []).value;
    if found != [] {
      assert EndpointOf(found[0], rels);
      var j :| 0 <= j < |rels| && rels[j].JObj? &&
               (Endpoint(rels[j], "from") == found[0] || Endpoint(rels[j], "to") == found[0]);
      KnownAfterPass(rule, p, arrange, q, ts, names, j, "from");
      KnownAfterPass(rule, p, arrange, q, ts, names, j, "to");
      assert false;
    }
  }

  /** A second pass appends no node, whatever the label rule. */
  lemma NothingToAdd(rule: LabelRule, p: Members, arrange: seq<Value> -> seq<Value>)
    requires Arranges(arrange) && NormalizeWith(rule, p, arrange).Success?
    ensures var q := NormalizeWith(rule, p, arrange).value;
            AddNodes(q, arrange) == Success(q)
  {
    ScanAfterPass(rule, p, arrange);
    EmptyArranged(arrange);
  }

  /** Under the corrected rule the repair loop leaves the repaired list as it is. */
  lemma TechsRepairedOnce(p: Members, arrange: seq<Value> -> seq<Value>)
    requires NormalizeWith(Corrected, p, arrange).Success?
    ensures var q := NormalizeWith(Corrected, p, arrange).value;
            RepairTechList(Corrected, q) == Success(q)
  {
    var q := NormalizeWith(Corrected, p, arrange).value;
    var p1, p2, p3 := Stages(Corrected, p, arrange);
    RepairTechListAt(Corrected, p1, "technologies");
    TrimRelListAt(p2, "technologies");
    WithExplanationAt(p3, "technologies");
    assert Find(q, "technologies") == Find(p2, "technologies");
    if IsListAt(p1, "technologies") {
      var ts := RepairTechs(Corrected, ListAt(p1, "technologies"), 1).value;
      RepairTechsIdempotent(ListAt(p1, "technologies"));
      assert Find(q, "technologies") == Some(JArr(ts));
    }
  }

  /** The relationship trims leave the trimmed list as it is. */
  lemma RelsTrimmedOnce(rule: LabelRule, p: Members, arrange: seq<Value> -> seq<Value>)
    requires NormalizeWith(rule, p, arrange).Success?
    ensures var q := NormalizeWith(rule, p, arrange).value;
            TrimRelList(q) == Success(q)
  {
    var q := NormalizeWith(rule, p, arrange).value;
    var p1, p2, p3 := Stages(rule, p, arrange);
    TrimRelListAt(p2, "relationships");
    WithExplanationAt(p3, "relationships");
    assert Find(q, "relationships") == Find(p3, "relationships");
    if IsListAt(p2, "relationships") {
      TrimRelsIdempotent(ListAt(p2, "relationships"));
    }
  }

  /** Under the corrected rule the pass is idempotent: run on its own result
      it succeeds and changes nothing. */
  lemma NormalizeIdempotent(p: Members, arrange: seq<Value> -> seq<Value>)
    requires Arranges(arrange) && NormalizeWith(Corrected, p, arrange).Success?
    ensures var q := NormalizeWith(Corrected, p, arrange).value;
            NormalizeWith(Corrected, q, arrange) == Success(q)
  {
    var q := NormalizeWith(Corrected, p, arrange).value;
    NothingToAdd(Corrected, p, arrange);
    TechsRepairedOnce(p, arrange);
    RelsTrimmedOnce(Corrected, p, arrange);
    ExplanationDefaulted(Corrected, p, arrange);
    WithExplanationAt(q, "explanation");
  }

  // ---------------------------------------------------------------------------
  // The label test as written

  /** A technology whose label is spaces, in an otherwise empty payload. */
  const BlankLabelTech: Value := JObj([("name", JStr("OBS")), ("node_label", JStr("  "))])
  const BlankLabelPayload: Members := [("technologies", JArr([BlankLabelTech]))]

  /** A payload holding only the technology list `ts`, after the explanation is defaulted. */
  function Explained(ts: seq<Value>): Members {
    [("technologies", JArr(ts)), ("explanation", JStr(DefaultExplanation))]
  }

  /** What the repair reads as the name of a technology with a stripped,
      non-empty string name. */
  lemma NameRead(ms: Members, name: string)
    requires Find(ms, "name") == Some(JStr(name))
    requires name != [] && Text.IsTrimmed(name)
    ensures TrimmedAt(ms, "name") == Some(JStr(name))
    ensures StrippedText(ms, "name") == Success(name)
  {
    assert GetOr(ms, "name", JNull) == JStr(name);
  }

  /** What the label tests read from such a technology with a string label. */
  lemma NamedLabelRead(ms: Members, name: string, tag: string)
    requires Find(ms, "node_label") == Some(JStr(tag)) && StrippedText(ms, "name") == Success(name)
    ensures LabelMissing(AsWritten, ms) <==> tag == []
    ensures LabelMissing(Corrected, ms) <==> Text.Trim(tag) == []
    ensures LabelAfter(AsWritten, ms) == JStr(if tag == [] then name else Text.Trim(tag))
    ensures LabelAfter(Corrected, ms) == JStr(if Text.Trim(tag) == [] then name else Text.Trim(tag))
  {
    AsWrittenLabelRead(ms, name, tag);
    CorrectedLabelRead(ms, name, tag);
  }

  lemma AsWrittenLabelRead(ms: Members, name: string, tag: string)
    requires Find(ms, "node_label") == Some(JStr(tag)) && StrippedText(ms, "name") == Success(name)
    ensures LabelMissing(AsWritten, ms) <==> tag == []
    ensures LabelAfter(AsWritten, ms) == JStr(if tag == [] then name else Text.Trim(tag))
  {
    assert GetOr(ms, "node_label", JNull) == JStr(tag);
  }

  lemma CorrectedLabelRead(ms: Members, name: string, tag: string)
    requires Find(ms, "node_label") == Some(JStr(tag)) && StrippedText(ms, "name") == Success(name)
    ensures LabelMissing(Corrected, ms) <==> Text.Trim(tag) == []
    ensures LabelAfter(Corrected, ms) == JStr(if Text.Trim(tag) == [] then name else Text.Trim(tag))
  {
    assert GetOr(ms, "node_label", JNull) == JStr(tag);
    CorrectedShown(ms, Text.Trim(tag));
  }

  /** The corrected test reads the label after its trim. */
  lemma CorrectedShown(ms: Members, cut: string)
    requires TrimIfStr(GetOr(ms, "node_label", JNull)) == JStr(cut)
    ensures LabelMissing(Corrected, ms) <==> cut == []
    ensures !LabelMissing(Corrected, ms) ==> LabelAfter(Corrected, ms) == JStr(cut)
  {
  }

  /** "OBS" is stripped, and two blanks strip to nothing. */
  lemma TrimExamples()
    ensures Text.IsTrimmed("OBS") && "OBS" != []
    ensures Text.Trim("  ") == [] && "  " != []
  {
    assert Text.IsSpace("  "[0]) && Text.IsSpace("  "[1]);
  }

  /** The first repair of the blank-label technology: as written it keeps
      the label, trimmed to ""; corrected it fills the label from the name. */
  lemma BlankLabelRepaired(rule: LabelRule)
    ensures RepairTech(rule, BlankLabelTech, 1).Success?
    ensures var u := RepairTech(rule, BlankLabelTech, 1).value;
            && u.JObj?
            && Find(u.members, "name") == Some(JStr("OBS"))
            && Find(u.members, "node_label") == Some(JStr(if rule == AsWritten then "" else "OBS"))
  {
    var t := BlankLabelTech;
    BlankLabelFacts();
    RepairTechFails(rule, t, 1);
    RepairTechAt(rule, t, 1, "name");
    RepairTechAt(rule, t, 1, "node_label");
  }

  /** What the repair reads from the blank-label technology. */
  lemma BlankLabelFacts()
    ensures TrimmedAt(BlankLabelTech.members, "name") == Some(JStr("OBS"))
    ensures StrippedText(BlankLabelTech.members, "name") == Success("OBS")
    ensures !LabelMissing(AsWritten, BlankLabelTech.members)
    ensures LabelMissing(Corrected, BlankLabelTech.members)
    ensures LabelAfter(AsWritten, BlankLabelTech.members) == JStr("")
    ensures LabelAfter(Corrected, BlankLabelTech.members) == JStr("OBS")
  {
    var t := BlankLabelTech;
    FindAt(t.members, "name", 0);
    FindAt(t.members, "node_label", 1);
    BlankLabelRead(t.members);
  }

  /** The same facts for any members that hold that name and label. */
  lemma BlankLabelRead(ms: Members)
    requires Find(ms, "name") == Some(JStr("OBS")) && Find(ms, "node_label") == Some(JStr("  "))
    ensures TrimmedAt(ms, "name") == Some(JStr("OBS"))
    ensures StrippedText(ms, "name") == Success("OBS")
    ensures !LabelMissing(AsWritten, ms)
    ensures LabelMissing(Corrected, ms)
    ensures LabelAfter(AsWritten, ms) == JStr("")
    ensures LabelAfter(Corrected, ms) == JStr("OBS")
  {
    TrimExamples();
    NameRead(ms, "OBS");
    NamedLabelRead(ms, "OBS", "  ");
  }

  /** A technology named "OBS" with the label "" gets the label "OBS" from a
      repair under the rule as written. */
  lemma EmptyLabelRepaired(u: Value)
    requires u.JObj? && Find(u.members, "name") == Some(JStr("OBS")) && Find(u.members, "node_label") == Some(JStr(""))
    ensures RepairTech(AsWritten, u, 1).Success?
    ensures var w := RepairTech(AsWritten, u, 1).value;
            && w.JObj?
            && Find(w.members, "name") == Some(JStr("OBS"))
            && Find(w.members, "node_label") == Some(JStr("OBS"))
  {
    EmptyLabelRead(u.members);
    RepairTechFails(AsWritten, u, 1);
    RepairTechAt(AsWritten, u, 1, "name");
    RepairTechAt(AsWritten, u, 1, "node_label");
  }

  /** What the repair as written reads from members with that name and label. */
  lemma EmptyLabelRead(ms: Members)
    requires Find(ms, "name") == Some(JStr("OBS")) && Find(ms, "node_label") == Some(JStr(""))
    ensures StrippedText(ms, "name") == Success("OBS")
    ensures LabelMissing(AsWritten, ms)
    ensures LabelAfter(AsWritten, ms) == JStr("OBS")
  {
    TrimExamples();
    NameRead(ms, "OBS");
    NamedLabelRead(ms, "OBS", "");
  }

  /** The label of the one technology of such a payload. */
  lemma ExplainedLabel(u: Value)
    requires u.JObj?
    ensures FirstLabel(Explained([u])) == Find(u.members, "node_label")
  {
    FindAt(Explained([u]), "technologies", 0);
  }

  /** A payload with one technology, no relationships and at most a default
      explanation: the pass only repairs that technology. */
  lemma SingleTechPass(rule: LabelRule, ms: Members, t: Value, arrange: seq<Value> -> seq<Value>)
    requires Arranges(arrange)
    requires ms == [("technologies", JArr([t]))] || ms == Explained([t])
    requires t.JObj? && Find(t.members, "name") == Some(JStr("OBS"))
    requires RepairTech(rule, t, 1).Success?
    ensures NormalizeWith(rule, ms, arrange) == Success(Explained([RepairTech(rule, t, 1).value]))
  {
    SingleTechScan(ms, t);
    EmptyArranged(arrange);
    assert AddNodes(ms, arrange) == Success(ms);
    var u := RepairTech(rule, t, 1).value;
    SingleRepaired(rule, t, u);
    SingleTechRest(rule, ms, t, u);
  }

  /** The stages after the scan on such a payload. */
  lemma SingleTechRest(rule: LabelRule, ms: Members, t: Value, u: Value)
    requires ms == [("technologies", JArr([t]))] || ms == Explained([t])
    requires RepairTechs(rule, [t], 1) == Success([u])
    ensures RepairTechList(rule, ms).Success?
    ensures TrimRelList(RepairTechList(rule, ms).value) == Success(RepairTechList(rule, ms).value)
    ensures WithExplanation(RepairTechList(rule, ms).value) == Explained([u])
  {
    var p2 := SingleTechList(rule, ms, t, u);
    SingleTechFinish(p2, u);
  }

  /** The list repair of such a payload puts the repaired item in place. */
  lemma SingleTechList(rule: LabelRule, ms: Members, t: Value, u: Value) returns (p2: Members)
    requires ms == [("technologies", JArr([t]))] || ms == Explained([t])
    requires RepairTechs(rule, [t], 1) == Success([u])
    ensures RepairTechList(rule, ms) == Success(p2)
    ensures p2 == [("technologies", JArr([u]))] || p2 == Explained([u])
  {
    FindAt(ms, "technologies", 0);
    p2 := Put(ms, "technologies", JArr([u]));
    assert p2 == ms[0 := ("technologies", JArr([u]))];
  }

  /** Such a payload has no relationships to trim, and its explanation ends
      up as the default. */
  lemma SingleTechFinish(p2: Members, u: Value)
    requires p2 == [("technologies", JArr([u]))] || p2 == Explained([u])
    ensures TrimRelList(p2) == Success(p2)
    ensures WithExplanation(p2) == Explained([u])
  {
    assert Find(p2, "relationships") == None;
    if p2 == Explained([u]) {
      FindAt(p2, "explanation", 1);
    }
  }

  /** The scan of such a payload finds the one name and no endpoint. */
  lemma SingleTechScan(ms: Members, t: Value)
    requires ms == [("technologies", JArr([t]))] || ms == Explained([t])
    requires t.JObj? && Find(t.members, "name") == Some(JStr("OBS"))
    ensures Scan(ms) == Success(Survey([JStr("OBS")], []))
  {
    FindAt(ms, "technologies", 0);
    assert Find(ms, "relationships") == None;
    var ts := [t];
    assert ts[0] == t && ts[1..] == [];
    assert DeclaredNames(ts[1..]) == Success([]);
    assert Hashable(JStr("OBS"));
    assert [JStr("OBS")] + [] == [JStr("OBS")];
    assert DeclaredNames(ts) == Success([JStr("OBS")]);
  }

  /** The repair loop over a one-item list repairs that item at position 1. */
  lemma SingleRepaired(rule: LabelRule, t: Value, u: Value)
    requires RepairTech(rule, t, 1) == Success(u)
    ensures RepairTechs(rule, [t], 1) == Success([u])
  {
    RepairTechsFails(rule, [t]);
    RepairTechsAt(rule, [t], 0, 1);
    var r := RepairTechs(rule, [t], 1).value;
    assert |r| == 1 && r[0] == u;
    assert r == [u];
  }

  /** The label of the first technology object, if there is one. */
  function FirstLabel(q: Members): Option<Value> {
    var xs := ListAt(q, "technologies");
    if xs != [] && xs[0].JObj? then Find(xs[0].members, "node_label") else None
  }

  /** Under the rule as written the pass is not idempotent: the label of
      spaces counts as present, is trimmed to "", and only a second pass
      fills it from the name. The corrected rule fills it at once. */
  lemma AsWrittenNotIdempotent(arrange: seq<Value> -> seq<Value>)
    requires Arranges(arrange)
    ensures NormalizeWith(AsWritten, BlankLabelPayload, arrange).Success?
    ensures var q := NormalizeWith(AsWritten, BlankLabelPayload, arrange).value;
            && FirstLabel(q) == Some(JStr(""))
            && NormalizeWith(AsWritten, q, arrange).Success?
            && FirstLabel(NormalizeWith(AsWritten, q, arrange).value) == Some(JStr("OBS"))
            && NormalizeWith(AsWritten, q, arrange).value != q
    ensures NormalizeWith(Corrected, BlankLabelPayload, arrange).Success?
    ensures FirstLabel(NormalizeWith(Corrected, BlankLabelPayload, arrange).value) == Some(JStr("OBS"))
  {
    FindAt(BlankLabelTech.members, "name", 0);
    BlankLabelRepaired(AsWritten);
    BlankLabelRepaired(Corrected);
    var u := RepairTech(AsWritten, BlankLabelTech, 1).value;
    var c := RepairTech(Corrected, BlankLabelTech, 1).value;
    EmptyLabelRepaired(u);
    var w := RepairTech(AsWritten, u, 1).value;
    SingleTechPass(AsWritten, BlankLabelPayload, BlankLabelTech, arrange);
    SingleTechPass(Corrected, BlankLabelPayload, BlankLabelTech, arrange);
    SingleTechPass(AsWritten, Explained([u]), u, arrange);
    ExplainedLabel(u);
    ExplainedLabel(c);
    ExplainedLabel(w);
  }
}
