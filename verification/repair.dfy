/** Lines 171-204 of diagram_chat.py, the second half of `normalize_payload`:
    renumbering, labelling and trimming each technology object, trimming the
    relationships, and defaulting the explanation. */
module Repair {
  import opened Wrappers
  import opened Json
  import opened Discovery
  import Text

  const DefaultExplanation: string := "Generated with defaults; please review."

  /** The technology fields trimmed at lines 181-188, in that order. */
  const TechTrimKeys: seq<string> := ["name", "category", "description", "node_label"]
  /** The relationship fields trimmed at lines 195-200, in that order. */
  const RelTrimKeys: seq<string> := ["from", "to", "type"]

  // ---------------------------------------------------------------------------
  // Lines 171-188: renumbering, labels and trimming

  /** `if k in t and isinstance(t[k], str): t[k] = t[k].strip()`. */
  function TrimField(t: Members, k: string): Members {
    var v := Find(t, k);
    if v.Some? && v.value.JStr? then Put(t, k, JStr(Text.Trim(v.value.s))) else t
  }

  /** The trims of `keys`, one after another. */
  function TrimFields(t: Members, keys: seq<string>): Members
    decreases |keys|
  {
    if keys == [] then t else TrimFields(TrimField(t, keys[0]), keys[1..])
  }

  /** The value under `k`, stripped when it is a string. */
  function TrimmedAt(t: Members, k: string): Option<Value> {
    match Find(t, k)
    case None => None
    case Some(v) => Some(TrimIfStr(v))
  }

  /** Trimming touches only the listed keys, and there only string values. */
  lemma {:induction false} TrimFieldsAt(t: Members, keys: seq<string>, k: string)
    ensures Find(TrimFields(t, keys), k) == if k in keys then TrimmedAt(t, k) else Find(t, k)
    decreases |keys|
  {
    if keys != [] {
      var t' := TrimField(t, keys[0]);
      TrimFieldsAt(t', keys[1..], k);
      if k in keys[1..] && Find(t, k).Some? {
        TrimIfStrIdempotent(Find(t, k).value);
      }
    }
  }

  /** Trimming keeps every key in its place. */
  lemma {:induction false} TrimFieldsKeys(t: Members, keys: seq<string>)
    ensures |TrimFields(t, keys)| == |t|
    ensures forall j :: 0 <= j < |t| ==> TrimFields(t, keys)[j].0 == t[j].0
    decreases |keys|
  {
    if keys != [] {
      TrimFieldsKeys(TrimField(t, keys[0]), keys[1..]);
    }
  }

  /** Every listed key holds a value trimming leaves as it is. */
  predicate FieldsTrimmed(t: Members, keys: seq<string>) {
    forall k :: k in keys ==> TrimmedAt(t, k) == Find(t, k)
  }

  /** Trimming fields already trimmed changes nothing. */
  lemma {:induction false} TrimFieldsTrimmed(t: Members, keys: seq<string>)
    requires FieldsTrimmed(t, keys)
    ensures TrimFields(t, keys) == t
    decreases |keys|
  {
    if keys != [] {
      assert TrimmedAt(t, keys[0]) == Find(t, keys[0]);
      assert TrimField(t, keys[0]) == t;
      TrimFieldsTrimmed(t, keys[1..]);
    }
  }

  /** Every listed key holds a trimmed value once trimmed. */
  lemma TrimFieldsDone(t: Members, keys: seq<string>)
    ensures FieldsTrimmed(TrimFields(t, keys), keys)
  {
    forall k | k in keys ensures TrimmedAt(TrimFields(t, keys), k) == Find(TrimFields(t, keys), k) {
      TrimFieldsAt(t, keys, k);
      if Find(t, k).Some? {
        TrimIfStrIdempotent(Find(t, k).value);
      }
    }
  }

  /** How the source decides that a label is missing (line 178). The source
      tests `not t.get("node_label")` before trimming, so a label of spaces
      passes as present and becomes "" only at line 188; `Corrected` tests
      the label as it will be after the trim. */
  datatype LabelRule = AsWritten | Corrected

  predicate LabelMissing(rule: LabelRule, t: Members) {
    var shown := GetOr(t, "node_label", JNull);
    match rule
    case AsWritten => !Truthy(shown)
    case Corrected => !Truthy(TrimIfStr(shown))
  }

  /** Lines 178-179: a missing label becomes the stripped name, or "". */
  function Relabel(rule: LabelRule, t: Members): Result<Members, PyError> {
    if LabelMissing(rule, t) then
      var text :- StrippedText(t, "name");
      Success(Put(t, "node_label", JStr(text)))
    else Success(t)
  }

  /** The members of a technology object after lines 176-179, before the trims. */
  function Labelled(rule: LabelRule, t: Members, idx: int): Result<Members, PyError> {
    Relabel(rule, Put(t, "node_id", JInt(idx)))
  }

  /** Lines 174-188 on the technology `t` at 1-based position `idx`. */
  function RepairTech(rule: LabelRule, t: Value, idx: int): Result<Value, PyError> {
    if !t.JObj? then Success(t)
    else
      var m :- Labelled(rule, t.members, idx);
      Success(JObj(TrimFields(m, TechTrimKeys)))
  }

  /** `f` applied to each item of `ts` with its position, counting from
      `first`; the first exception stops the loop. */
  function MapAt(f: (Value, int) -> Result<Value, PyError>, ts: seq<Value>, first: int): Result<seq<Value>, PyError>
    decreases |ts|
  {
    if ts == [] then Success([])
    else
      var t :- f(ts[0], first);
      var rest :- MapAt(f, ts[1..], first + 1);
      Success([t] + rest)
  }

  /** The loop body of lines 173-188 under `rule`. */
  function Repairer(rule: LabelRule): (Value, int) -> Result<Value, PyError> {
    (t, idx) => RepairTech(rule, t, idx)
  }

  /** Lines 173-188 over `ts`, the first of which is at position `first`. */
  function RepairTechs(rule: LabelRule, ts: seq<Value>, first: int): Result<seq<Value>, PyError> {
    MapAt(Repairer(rule), ts, first)
  }

  /** Lines 171-188 on the payload dict `p`. A technologies value that is a
      string or a dict iterates without objects and is left alone. */
  function RepairTechList(rule: LabelRule, p: Members): Result<Members, PyError> {
    match Find(p, "technologies")
    case None => Success(p)
    case Some(tv) =>
      if tv.JArr? then
        var ts :- RepairTechs(rule, tv.items, 1);
        Success(Put(p, "technologies", JArr(ts)))
      else if Iterate(tv).Failure? then Failure(TypeError)
      else Success(p)
  }

  /** The label line 179 writes: the stripped name, or "" for a false name. */
  lemma RelabelSpec(rule: LabelRule, t: Members)
    ensures Relabel(rule, t).Failure? <==> LabelMissing(rule, t) && StrippedText(t, "name").Failure?
    ensures Relabel(rule, t).Success? && LabelMissing(rule, t) ==>
              Relabel(rule, t).value == Put(t, "node_label", JStr(StrippedText(t, "name").value))
    ensures Relabel(rule, t).Success? && !LabelMissing(rule, t) ==> Relabel(rule, t).value == t
  {
  }

  /** Key by key, line 179: a missing label becomes the stripped name (raising
      exactly when the name is a true non-string), a present one is kept, and
      no other key changes. */
  lemma RelabelAt(rule: LabelRule, t: Members, k: string)
    ensures Relabel(rule, t).Failure? <==> LabelMissing(rule, t) && StrippedText(t, "name").Failure?
    ensures Relabel(rule, t).Success? ==>
              Find(Relabel(rule, t).value, "node_label") ==
                if LabelMissing(rule, t) then Some(JStr(StrippedText(t, "name").value)) else Find(t, "node_label")
    ensures Relabel(rule, t).Success? && k != "node_label" ==> Find(Relabel(rule, t).value, k) == Find(t, k)
  {
    RelabelSpec(rule, t);
  }

  /** The label a technology object ends up with when its repair succeeds. */
  function LabelAfter(rule: LabelRule, t: Members): Value
    requires !LabelMissing(rule, t) || StrippedText(t, "name").Success?
  {
    if LabelMissing(rule, t) then JStr(StrippedText(t, "name").value)
    else TrimIfStr(GetOr(t, "node_label", JNull))
  }

  /** Repairing a technology object fails only when its label is missing
      and its name is a true non-string. */
  lemma RepairTechFails(rule: LabelRule, t: Value, idx: int)
    requires t.JObj?
    ensures RepairTech(rule, t, idx).Failure? <==> LabelMissing(rule, t.members) && StrippedText(t.members, "name").Failure?
    ensures RepairTech(rule, t, idx).Failure? ==> RepairTech(rule, t, idx).error == AttributeError
  {
    var m0 := Put(t.members, "node_id", JInt(idx));
    assert GetOr(m0, "node_label", JNull) == GetOr(t.members, "node_label", JNull);
    assert GetOr(m0, "name", JNull) == GetOr(t.members, "name", JNull);
    RelabelSpec(rule, m0);
  }

  /** Before the trims, the object has the id `idx`, the label `LabelAfter`
      untrimmed, and every other field as before. */
  lemma LabelledAt(rule: LabelRule, t: Members, idx: int, k: string)
    requires Labelled(rule, t, idx).Success?
    ensures !LabelMissing(rule, t) || StrippedText(t, "name").Success?
    ensures k == "node_id" ==> Find(Labelled(rule, t, idx).value, k) == Some(JInt(idx))
    ensures k == "node_label" ==> TrimmedAt(Labelled(rule, t, idx).value, k) == Some(LabelAfter(rule, t))
    ensures k != "node_id" && k != "node_label" ==> Find(Labelled(rule, t, idx).value, k) == Find(t, k)
  {
    var m0 := Put(t, "node_id", JInt(idx));
    PutIdKeeps(rule, t, idx);
    RelabelSpec(rule, m0);
    var m := Labelled(rule, t, idx).value;
    if LabelMissing(rule, t) {
      var text := StrippedText(t, "name").value;
      assert m == Put(m0, "node_label", JStr(text));
      if k == "node_label" {
        assert Find(m, k) == Some(JStr(text));
        assert Text.IsTrimmed(text);
      } else {
        assert Find(m, k) == Find(m0, k);
      }
    } else {
      assert m == m0;
    }
  }

  /** Setting `node_id` leaves the label and the name as they were. */
  lemma PutIdKeeps(rule: LabelRule, t: Members, idx: int)
    ensures LabelMissing(rule, Put(t, "node_id", JInt(idx))) == LabelMissing(rule, t)
    ensures StrippedText(Put(t, "node_id", JInt(idx)), "name") == StrippedText(t, "name")
    ensures GetOr(Put(t, "node_id", JInt(idx)), "node_label", JNull) == GetOr(t, "node_label", JNull)
  {
    var m0 := Put(t, "node_id", JInt(idx));
    assert Find(m0, "node_label") == Find(t, "node_label");
    assert Find(m0, "name") == Find(t, "name");
  }

  /** A repaired technology object has the id `idx`, the label `LabelAfter`,
      its other trimmed fields stripped when strings, and every other field
      exactly as before. */
  lemma RepairTechAt(rule: LabelRule, t: Value, idx: int, k: string)
    requires t.JObj? && RepairTech(rule, t, idx).Success?
    ensures RepairTech(rule, t, idx).value.JObj?
    ensures !LabelMissing(rule, t.members) || StrippedText(t.members, "name").Success?
    ensures Find(RepairTech(rule, t, idx).value.members, k) ==
              if k == "node_id" then Some(JInt(idx))
              else if k == "node_label" then Some(LabelAfter(rule, t.members))
              else if k in TechTrimKeys then TrimmedAt(t.members, k)
              else Find(t.members, k)
  {
    var m := Labelled(rule, t.members, idx).value;
    var out := RepairTech(rule, t, idx).value.members;
    assert out == TrimFields(m, TechTrimKeys);
    LabelledAt(rule, t.members, idx, k);
    TrimFieldsAt(m, TechTrimKeys, k);
    if k == "node_id" {
      assert k !in TechTrimKeys;
      assert Find(out, k) == Find(m, k);
    } else if k == "node_label" {
      assert k in TechTrimKeys;
      assert Find(out, k) == TrimmedAt(m, k);
    } else if k in TechTrimKeys {
      assert Find(out, k) == TrimmedAt(m, k);
      assert Find(m, k) == Find(t.members, k);
    } else {
      assert Find(out, k) == Find(m, k);
    }
  }

  /** With the corrected rule a label is never missing after a repair unless
      it is "" and the name is false after trimming, so a second repair at
      the same position finds nothing to do. */
  lemma RepairTechIdempotent(t: Value, idx: int)
    requires RepairTech(Corrected, t, idx).Success?
    ensures RepairTech(Corrected, RepairTech(Corrected, t, idx).value, idx) == RepairTech(Corrected, t, idx)
  {
    if t.JObj? {
      var m0 := Put(t.members, "node_id", JInt(idx));
      var m := Relabel(Corrected, m0).value;
      var r := TrimFields(m, TechTrimKeys);
      assert RepairTech(Corrected, t, idx).value == JObj(r);
      RepairTechAt(Corrected, t, idx, "node_id");
      RepairTechAt(Corrected, t, idx, "node_label");
      RepairTechAt(Corrected, t, idx, "name");
      assert Put(r, "node_id", JInt(idx)) == r;
      RelabelFixed(t.members, r);
      TrimFieldsDone(m, TechTrimKeys);
      TrimFieldsTrimmed(r, TechTrimKeys);
    }
  }

  /** The label step of a second repair keeps the repaired object `r` of `t`. */
  lemma RelabelFixed(t: Members, r: Members)
    requires !LabelMissing(Corrected, t) || StrippedText(t, "name").Success?
    requires Find(r, "node_label") == Some(LabelAfter(Corrected, t))
    requires Find(r, "name") == TrimmedAt(t, "name")
    ensures Relabel(Corrected, r) == Success(r)
  {
    var shown := LabelAfter(Corrected, t);
    assert GetOr(r, "node_label", JNull) == shown;
    if !LabelMissing(Corrected, t) {
      TrimIfStrIdempotent(GetOr(t, "node_label", JNull));
      assert !LabelMissing(Corrected, r);
    } else {
      var text := StrippedText(t, "name").value;
      assert shown == JStr(text) && Text.IsTrimmed(text);
      if text != [] {
        assert TrimIfStr(shown) == shown;
        LabelKept(r, shown);
      } else {
        NameFalseAfterTrim(t, r);
        assert StrippedText(r, "name") == Success("");
      }
    }
  }

  /** A true label that trimming leaves as it is is not missing. */
  lemma LabelKept(r: Members, shown: Value)
    requires GetOr(r, "node_label", JNull) == shown && TrimIfStr(shown) == shown && Truthy(shown)
    ensures !LabelMissing(Corrected, r)
  {
  }

  /** A name whose stripped text is "" stays false once trimmed. */
  lemma NameFalseAfterTrim(t: Members, r: Members)
    requires StrippedText(t, "name") == Success("")
    requires Find(r, "name") == TrimmedAt(t, "name")
    ensures !Truthy(GetOr(r, "name", JNull))
  {
    var v := GetOr(t, "name", JNull);
    if Truthy(v) {
      assert v.JStr? && Text.Trim(v.s) == "";
    }
  }

  /** The loop succeeds exactly when every item does. */
  lemma {:induction false} MapAtFails(f: (Value, int) -> Result<Value, PyError>, ts: seq<Value>, first: int)
    ensures MapAt(f, ts, first).Success? <==> forall i :: 0 <= i < |ts| ==> f(ts[i], first + i).Success?
    decreases |ts|
  {
    if ts != [] {
      MapAtFails(f, ts[1..], first + 1);
      forall i | 1 <= i < |ts| ensures f(ts[i], first + i) == f(ts[1..][i - 1], (first + 1) + (i - 1)) {
      }
    }
  }

  /** After a successful loop, item `n` is `f` of item `n` at position `first + n`. */
  lemma {:induction false} MapAtItem(f: (Value, int) -> Result<Value, PyError>, ts: seq<Value>, first: int, n: nat)
    requires MapAt(f, ts, first).Success?
    ensures |MapAt(f, ts, first).value| == |ts|
    ensures n < |ts| ==> f(ts[n], first + n).Success?
    ensures n < |ts| ==> MapAt(f, ts, first).value[n] == f(ts[n], first + n).value
    decreases |ts|
  {
    if ts != [] {
      MapAtItem(f, ts[1..], first + 1, if n == 0 then 0 else n - 1);
    }
  }

  /** A loop that leaves every item as it is leaves the list as it is. */
  lemma {:induction false} MapAtFixed(f: (Value, int) -> Result<Value, PyError>, ts: seq<Value>, first: int)
    requires forall i :: 0 <= i < |ts| ==> f(ts[i], first + i) == Success(ts[i])
    ensures MapAt(f, ts, first) == Success(ts)
    decreases |ts|
  {
    if ts != [] {
      assert f(ts[0], first + 0) == Success(ts[0]);
      forall i | 0 <= i < |ts[1..]| ensures f(ts[1..][i], (first + 1) + i) == Success(ts[1..][i]) {
        assert f(ts[i + 1], first + (i + 1)) == Success(ts[i + 1]);
      }
      MapAtFixed(f, ts[1..], first + 1);
      assert [ts[0]] + ts[1..] == ts;
    }
  }

  /** After lines 173-188 succeed on a whole list, item `n` is the repair of
      item `n` at its 1-based position. */
  lemma RepairTechsAt(rule: LabelRule, ts: seq<Value>, n: nat, idx: int)
    requires RepairTechs(rule, ts, 1).Success? && idx == 1 + n
    ensures |RepairTechs(rule, ts, 1).value| == |ts|
    ensures n < |ts| ==> RepairTech(rule, ts[n], idx).Success?
    ensures n < |ts| ==> RepairTechs(rule, ts, 1).value[n] == RepairTech(rule, ts[n], idx).value
  {
    MapAtItem(Repairer(rule), ts, 1, n);
  }

  /** Lines 173-188 over a whole list succeed exactly when every item does. */
  lemma RepairTechsFails(rule: LabelRule, ts: seq<Value>)
    ensures RepairTechs(rule, ts, 1).Success? <==> forall n :: 0 <= n < |ts| ==> RepairTech(rule, ts[n], 1 + n).Success?
  {
    MapAtFails(Repairer(rule), ts, 1);
  }

  /** A loop whose body is idempotent on each item is idempotent. */
  lemma MapAtIdempotent(f: (Value, int) -> Result<Value, PyError>, ts: seq<Value>, first: int)
    requires MapAt(f, ts, first).Success?
    requires forall n :: 0 <= n < |ts| && f(ts[n], first + n).Success? ==>
               f(f(ts[n], first + n).value, first + n) == f(ts[n], first + n)
    ensures MapAt(f, MapAt(f, ts, first).value, first) == MapAt(f, ts, first)
  {
    var vs := MapAt(f, ts, first).value;
    MapAtItem(f, ts, first, 0);
    forall i | 0 <= i < |vs| ensures f(vs[i], first + i) == Success(vs[i]) {
      MapAtItem(f, ts, first, i);
    }
    MapAtFixed(f, vs, first);
  }

  /** A repaired list repairs to itself under the corrected rule. */
  lemma RepairTechsIdempotent(ts: seq<Value>)
    requires RepairTechs(Corrected, ts, 1).Success?
    ensures RepairTechs(Corrected, RepairTechs(Corrected, ts, 1).value, 1) == RepairTechs(Corrected, ts, 1)
  {
    var f := Repairer(Corrected);
    forall n | 0 <= n < |ts| && f(ts[n], 1 + n).Success?
      ensures f(f(ts[n], 1 + n).value, 1 + n) == f(ts[n], 1 + n)
    {
      RepairTechIdempotent(ts[n], 1 + n);
    }
    MapAtIdempotent(f, ts, 1);
  }

  // ---------------------------------------------------------------------------
  // Lines 191-204: relationships and the explanation

  /** Lines 193-200 on one relationship. */
  function TrimRel(r: Value): Value {
    if r.JObj? then JObj(TrimFields(r.members, RelTrimKeys)) else r
  }

  /** Lines 192-200 over a list of relationships. */
  function TrimRels(rs: seq<Value>): seq<Value> {
    seq(|rs|, j requires 0 <= j < |rs| => TrimRel(rs[j]))
  }

  /** Lines 191-200 on the payload dict `p`. */
  function TrimRelList(p: Members): Result<Members, PyError> {
    match Find(p, "relationships")
    case None => Success(p)
    case Some(rv) =>
      if rv.JArr? then Success(Put(p, "relationships", JArr(TrimRels(rv.items))))
      else if Iterate(rv).Failure? then Failure(TypeError)
      else Success(p)
  }

  /** A trimmed relationship has its `from`, `to` and `type` stripped when
      strings and every other field as before. */
  lemma TrimRelAt(r: Value, k: string)
    requires r.JObj?
    ensures TrimRel(r).JObj?
    ensures Find(TrimRel(r).members, k) == if k in RelTrimKeys then TrimmedAt(r.members, k) else Find(r.members, k)
  {
    TrimFieldsAt(r.members, RelTrimKeys, k);
  }

  /** What `rel.get(key)` reads from a trimmed relationship. */
  lemma EndpointTrimmed(r: Value, key: string)
    requires r.JObj? && key in RelTrimKeys
    ensures Endpoint(TrimRel(r), key) == TrimIfStr(Endpoint(r, key))
  {
    TrimRelAt(r, key);
  }

  /** Trimming a relationship twice is trimming it once. */
  lemma TrimRelIdempotent(r: Value)
    ensures TrimRel(TrimRel(r)) == TrimRel(r)
  {
    if r.JObj? {
      TrimFieldsDone(r.members, RelTrimKeys);
      TrimFieldsTrimmed(TrimRel(r).members, RelTrimKeys);
    }
  }

  lemma TrimRelsIdempotent(rs: seq<Value>)
    ensures TrimRels(TrimRels(rs)) == TrimRels(rs)
  {
    forall j | 0 <= j < |rs| ensures TrimRels(TrimRels(rs))[j] == TrimRels(rs)[j] {
      TrimRelIdempotent(rs[j]);
    }
  }

  /** Lines 203-204. */
  function WithExplanation(p: Members): Members {
    var e := Find(p, "explanation");
    if e.Some? && e.value.JStr? then p else Put(p, "explanation", JStr(DefaultExplanation))
  }

  /** The explanation is replaced exactly when it is absent or not a string,
      and nothing else changes. */
  lemma WithExplanationAt(p: Members, k: string)
    ensures Find(WithExplanation(p), k) ==
              if k != "explanation" then Find(p, k)
              else if Find(p, k).Some? && Find(p, k).value.JStr? then Find(p, k)
              else Some(JStr(DefaultExplanation))
    ensures (WithExplanation(p) == p) <==> Find(p, "explanation").Some? && Find(p, "explanation").value.JStr?
  {
  }

  /** What `d.get(k)` reads from an appended node, key by key. */
  lemma ExternalNodeFind(name: Value, id: int)
    ensures var ms := ExternalNode(name, id).members;
            && Find(ms, "name") == Some(name)
            && Find(ms, "category") == Some(JStr(ExternalCategory))
            && Find(ms, "description") == Some(JStr(ExternalDescription))
            && Find(ms, "node_id") == Some(JInt(id))
            && Find(ms, "node_label") == Some(name)
  {
    var ms := ExternalNode(name, id).members;
    FindAt(ms, "name", 0);
    FindAt(ms, "category", 1);
    FindAt(ms, "description", 2);
    FindAt(ms, "node_id", 3);
    FindAt(ms, "node_label", 4);
  }

  /** The node appended for a true name, repaired at position `idx`, has
      the shape of the node for that name. */
  lemma ExternalNodeRepaired(rule: LabelRule, name: Value, idx: int)
    requires Truthy(name)
    ensures RepairTech(rule, ExternalNode(name, idx), idx).Success?
    ensures ExternalShape(RepairTech(rule, ExternalNode(name, idx), idx).value, name)
  {
    var t := ExternalNode(name, idx);
    ExternalNodeFind(name, idx);
    RepairTechFails(rule, t, idx);
    RepairTechAt(rule, t, idx, "name");
    RepairTechAt(rule, t, idx, "node_label");
    RepairTechAt(rule, t, idx, "category");
    RepairTechAt(rule, t, idx, "description");
    FixedTextsTrimmed();
  }

  /** An external node at position `n` of a list the loop repairs comes out
      with the shape of the node for its name. */
  lemma ExternalAt(rule: LabelRule, us: seq<Value>, n: nat, idx: int, name: Value)
    requires RepairTechs(rule, us, 1).Success? && idx == 1 + n
    requires n < |us| && us[n] == ExternalNode(name, idx) && Truthy(name)
    ensures |RepairTechs(rule, us, 1).value| == |us|
    ensures ExternalShape(RepairTechs(rule, us, 1).value[n], name)
  {
    RepairTechsAt(rule, us, n, idx);
    ExternalNodeRepaired(rule, name, idx);
  }

  /** Repairing a list with nodes appended keeps its length, and the node
      for a true name has the shape of the node for that name. */
  lemma AppendedRepaired(rule: LabelRule, ts: seq<Value>, ex: seq<Value>, k: nat)
    requires RepairTechs(rule, Appended(ts, ex), 1).Success?
    ensures |RepairTechs(rule, Appended(ts, ex), 1).value| == |ts| + |ex|
    ensures k < |ex| && Truthy(ex[k]) ==> ExternalShape(RepairTechs(rule, Appended(ts, ex), 1).value[|ts| + k], ex[k])
  {
    var us := Appended(ts, ex);
    AppendedSpec(ts, ex);
    RepairTechsAt(rule, us, 0, 1);
    if k < |ex| && Truthy(ex[k]) {
      AppendedAt(ts, ex, k);
      ExternalAt(rule, us, |ts| + k, |ts| + k + 1, ex[k]);
    }
  }
}
