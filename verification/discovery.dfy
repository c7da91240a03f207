/** Lines 152-169 of diagram_chat.py, the first half of `normalize_payload`:
    the names the technologies declare, the relationship endpoints nobody
    declares, and the technology objects appended for them. */
module Discovery {
  import opened Wrappers
  import opened Json
  import Text

  /** The endpoint name that never gets a node of its own (line 156). */
  const AllServices: string := "All Services"
  const ExternalCategory: string := "External"
  const ExternalDescription: string := "User-defined or external component."

  /** The fixed texts have no surrounding whitespace. */
  lemma FixedTextsTrimmed()
    ensures Text.Trim(AllServices) == AllServices
    ensures Text.Trim(ExternalCategory) == ExternalCategory
    ensures Text.Trim(ExternalDescription) == ExternalDescription
  {
    assert Text.IsTrimmed(AllServices);
    assert Text.IsTrimmed(ExternalCategory);
    assert Text.IsTrimmed(ExternalDescription);
  }

  // ---------------------------------------------------------------------------
  // Python sets of names

  /** No two elements of `xs` are equal in Python's sense, so `xs` can list
      the elements of a Python set. */
  predicate SetLike(xs: seq<Value>) {
    forall i, j :: 0 <= i < j < |xs| ==> !PyEq(xs[i], xs[j])
  }

  /** The order in which the source iterates a set (line 159) is fixed by
      Python's hashing and is not specified: `arrange(xs)` is that order for a
      set holding the elements of `xs`, some arrangement of exactly those,
      one item per element when `xs` lists each element once. */
  ghost predicate Arranges(arrange: seq<Value> -> seq<Value>) {
    forall xs: seq<Value> :: SameElements(arrange(xs), xs) && |arrange(xs)| == |xs|
  }

  /** `a` and `b` hold the same elements, in any order and number. */
  ghost predicate SameElements(a: seq<Value>, b: seq<Value>) {
    forall x :: x in a <==> x in b
  }

  // ---------------------------------------------------------------------------
  // Lines 152-157: declared names and unknown endpoints

  /** `t` is a technology object whose `name` is `v`. */
  predicate Declares(t: Value, v: Value) {
    t.JObj? && Find(t.members, "name") == Some(v)
  }

  /** Every object among `ts` has a `name` that can go in a set. */
  predicate NamesHashable(ts: seq<Value>) {
    forall i :: 0 <= i < |ts| && ts[i].JObj? ==>
      Has(ts[i].members, "name") && Hashable(Find(ts[i].members, "name").value)
  }

  /** The set comprehension of line 152 over the iterated technologies, as a
      list of the names in the order met. */
  function DeclaredNames(ts: seq<Value>): (r: Result<seq<Value>, PyError>)
    decreases |ts|
  {
    if ts == [] then Success([])
    else if !ts[0].JObj? then DeclaredNames(ts[1..])
    else
      var n := Find(ts[0].members, "name");
      if n.None? then Failure(KeyError("name"))
      else if !Hashable(n.value) then Failure(TypeError)
      else
        var rest :- DeclaredNames(ts[1..]);
        Success([n.value] + rest)
  }

  /** The comprehension succeeds exactly when every object has a hashable
      name, and then holds exactly the declared names. */
  lemma {:induction false} DeclaredNamesSpec(ts: seq<Value>)
    ensures DeclaredNames(ts).Success? <==> NamesHashable(ts)
    ensures DeclaredNames(ts).Failure? ==> DeclaredNames(ts).error in {KeyError("name"), TypeError}
    ensures DeclaredNames(ts).Success? ==>
              forall v :: v in DeclaredNames(ts).value <==> exists i :: 0 <= i < |ts| && Declares(ts[i], v)
    ensures DeclaredNames(ts).Success? ==> forall v :: v in DeclaredNames(ts).value ==> Hashable(v)
    decreases |ts|
  {
    if ts != [] {
      DeclaredNamesSpec(ts[1..]);
      assert forall i :: 1 <= i < |ts| ==> ts[i] == ts[1..][i - 1];
      if DeclaredNames(ts).Success? {
        var r := DeclaredNames(ts).value;
        forall v | v in r ensures exists i :: 0 <= i < |ts| && Declares(ts[i], v) {
          if !(ts[0].JObj? && v == r[0]) {
            var i :| 0 <= i < |ts[1..]| && Declares(ts[1..][i], v);
            assert Declares(ts[i + 1], v);
          }
        }
      }
    }
  }

  /** `rel.get(key)` on a relationship object: `None` when absent. */
  function Endpoint(r: Value, key: string): Value
    requires r.JObj?
  {
    GetOr(r.members, key, JNull)
  }

  /** An endpoint line 156 adds to the extra nodes: true, not a declared
      name, and not "All Services". */
  predicate Unknown(e: Value, names: seq<Value>) {
    Truthy(e) && !PyIn(e, names) && !PyEq(e, JStr(AllServices))
  }

  /** Every element of `found` is a hashable unknown endpoint and no two are equal. */
  predicate Discovered(found: seq<Value>, names: seq<Value>) {
    && SetLike(found)
    && forall k :: 0 <= k < |found| ==> Hashable(found[k]) && Unknown(found[k], names)
  }

  /** The endpoint `e` needs no extra node, or `found` already has one for it. */
  predicate Covered(e: Value, names: seq<Value>, found: seq<Value>) {
    !Unknown(e, names) || PyIn(e, found)
  }

  /** One pass of the inner loop at lines 155-157: `extra_nodes.add(e)` when
      line 156 admits `e`; an equal element already present stays. */
  function Consider(e: Value, names: seq<Value>, found: seq<Value>): Result<seq<Value>, PyError> {
    if !Truthy(e) then Success(found)
    else if !Hashable(e) then Failure(TypeError)
    else if PyIn(e, names) || PyEq(e, JStr(AllServices)) || PyIn(e, found) then Success(found)
    else Success(found + [e])
  }

  lemma ConsiderSpec(e: Value, names: seq<Value>, found: seq<Value>)
    requires Discovered(found, names)
    ensures Consider(e, names, found).Failure? <==> Truthy(e) && !Hashable(e)
    ensures Consider(e, names, found).Failure? ==> Consider(e, names, found).error == TypeError
    ensures Consider(e, names, found).Success? ==>
              var r := Consider(e, names, found).value;
              && found <= r && Discovered(r, names) && Covered(e, names, r)
              && forall k :: |found| <= k < |r| ==> r[k] == e
  {
    var c := Consider(e, names, found);
    if c.Success? && c.value != found {
      var r := c.value;
      assert r == found + [e];
      assert PyEq(e, r[|found|]);
      forall i, j | 0 <= i < j < |r| ensures !PyEq(r[i], r[j]) {
        if j == |found| {
          if PyEq(r[i], r[j]) {
            PyEqSymmetric(r[i], e);
            assert false;
          }
        }
      }
    }
  }

  /** Every relationship is an object and every true endpoint is hashable. */
  predicate EndpointsHashable(rels: seq<Value>) {
    forall j :: 0 <= j < |rels| ==>
      && rels[j].JObj?
      && (Truthy(Endpoint(rels[j], "from")) ==> Hashable(Endpoint(rels[j], "from")))
      && (Truthy(Endpoint(rels[j], "to")) ==> Hashable(Endpoint(rels[j], "to")))
  }

  /** `x` is the `from` or `to` value of one of the relationship objects. */
  predicate EndpointOf(x: Value, rels: seq<Value>) {
    exists j :: 0 <= j < |rels| && rels[j].JObj? && (Endpoint(rels[j], "from") == x || Endpoint(rels[j], "to") == x)
  }

  /** Lines 154-157 from the relationship `rels[0]` on, with the extra nodes
      found so far. A relationship that is not a dict has no `.get`. */
  function Discover(rels: seq<Value>, names: seq<Value>, found: seq<Value>): Result<seq<Value>, PyError>
    decreases |rels|
  {
    if rels == [] then Success(found)
    else if !rels[0].JObj? then Failure(AttributeError)
    else
      var f1 :- Consider(Endpoint(rels[0], "from"), names, found);
      var f2 :- Consider(Endpoint(rels[0], "to"), names, f1);
      Discover(rels[1..], names, f2)
  }

  /** The scan fails exactly on a non-object relationship or an unhashable
      true endpoint. Otherwise it extends `found` to a set holding one
      representative of every unknown endpoint, and nothing but endpoints. */
  lemma {:induction false} DiscoverSpec(rels: seq<Value>, names: seq<Value>, found: seq<Value>)
    requires Discovered(found, names)
    ensures Discover(rels, names, found).Success? <==> EndpointsHashable(rels)
    ensures Discover(rels, names, found).Failure? ==> Discover(rels, names, found).error in {AttributeError, TypeError}
    ensures Discover(rels, names, found).Success? ==>
              var r := Discover(rels, names, found).value;
              && found <= r && Discovered(r, names)
              && (forall j :: 0 <= j < |rels| ==>
                    Covered(Endpoint(rels[j], "from"), names, r) && Covered(Endpoint(rels[j], "to"), names, r))
              && (forall k :: |found| <= k < |r| ==> EndpointOf(r[k], rels))
    decreases |rels|
  {
    if rels != [] {
      StepHashable(rels);
    }
    if rels != [] && rels[0].JObj? {
      var r0 := rels[0];
      ConsiderSpec(Endpoint(r0, "from"), names, found);
      var c1 := Consider(Endpoint(r0, "from"), names, found);
      if c1.Success? {
        var f1 := c1.value;
        ConsiderSpec(Endpoint(r0, "to"), names, f1);
        var c2 := Consider(Endpoint(r0, "to"), names, f1);
        if c2.Success? {
          var f2 := c2.value;
          var tail := rels[1..];
          DiscoverSpec(tail, names, f2);
          var d := Discover(tail, names, f2);
          if d.Success? {
            var r := d.value;
            StepCovered(rels, names, f1, f2, r);
            StepEndpoints(rels, found, f1, f2, r);
          }
        }
      }
    }
  }

  /** The relationships are well formed exactly when the first one is and
      the rest are. */
  lemma StepHashable(rels: seq<Value>)
    requires rels != []
    ensures EndpointsHashable(rels) <==>
              && rels[0].JObj?
              && (Truthy(Endpoint(rels[0], "from")) ==> Hashable(Endpoint(rels[0], "from")))
              && (Truthy(Endpoint(rels[0], "to")) ==> Hashable(Endpoint(rels[0], "to")))
              && EndpointsHashable(rels[1..])
  {
    var tail := rels[1..];
    assert forall j :: 1 <= j < |rels| ==> rels[j] == tail[j - 1];
  }

  /** The endpoints of the first relationship, covered as it is scanned,
      stay covered by what the rest of the scan returns. */
  lemma StepCovered(rels: seq<Value>, names: seq<Value>, f1: seq<Value>, f2: seq<Value>, r: seq<Value>)
    requires rels != [] && EndpointsHashable(rels)
    requires Covered(Endpoint(rels[0], "from"), names, f1) && Covered(Endpoint(rels[0], "to"), names, f2)
    requires f1 <= f2 && f2 <= r
    requires forall j :: 0 <= j < |rels[1..]| ==>
               Covered(Endpoint(rels[1..][j], "from"), names, r) && Covered(Endpoint(rels[1..][j], "to"), names, r)
    ensures forall j :: 0 <= j < |rels| ==>
              Covered(Endpoint(rels[j], "from"), names, r) && Covered(Endpoint(rels[j], "to"), names, r)
  {
    var tail := rels[1..];
    StepHashable(rels);
    CoveredGrows(Endpoint(rels[0], "from"), names, f1, r);
    CoveredGrows(Endpoint(rels[0], "to"), names, f2, r);
    forall j | 1 <= j < |rels|
      ensures Covered(Endpoint(rels[j], "from"), names, r) && Covered(Endpoint(rels[j], "to"), names, r)
    {
      assert rels[j] == tail[j - 1];
    }
  }

  /** What one step of the scan adds are the endpoints of its relationship,
      and what the rest adds are endpoints of the rest. */
  lemma StepEndpoints(rels: seq<Value>, found: seq<Value>, f1: seq<Value>, f2: seq<Value>, r: seq<Value>)
    requires rels != [] && rels[0].JObj?
    requires found <= f1 && f1 <= f2 && f2 <= r
    requires forall k :: |found| <= k < |f1| ==> f1[k] == Endpoint(rels[0], "from")
    requires forall k :: |f1| <= k < |f2| ==> f2[k] == Endpoint(rels[0], "to")
    requires forall k :: |f2| <= k < |r| ==> EndpointOf(r[k], rels[1..])
    ensures forall k :: |found| <= k < |r| ==> EndpointOf(r[k], rels)
  {
    var tail := rels[1..];
    forall k | |found| <= k < |r| ensures EndpointOf(r[k], rels) {
      if k < |f2| {
        assert r[k] == f2[k];
        if k < |f1| {
          assert f2[k] == f1[k];
          assert r[k] == Endpoint(rels[0], "from");
        } else {
          assert r[k] == Endpoint(rels[0], "to");
        }
      } else {
        assert EndpointOf(r[k], tail);
        var j :| 0 <= j < |tail| && tail[j].JObj? && (Endpoint(tail[j], "from") == r[k] || Endpoint(tail[j], "to") == r[k]);
        assert rels[j + 1] == tail[j];
      }
    }
  }

  /** Coverage survives adding elements. */
  lemma CoveredGrows(e: Value, names: seq<Value>, found: seq<Value>, more: seq<Value>)
    requires Covered(e, names, found) && found <= more
    ensures Covered(e, names, more)
  {
    if PyIn(e, found) {
      var i :| 0 <= i < |found| && PyEq(e, found[i]);
      assert more[i] == found[i];
    }
  }

  /** The names read at line 152 and the extra nodes collected at lines 153-157. */
  datatype Survey = Survey(names: seq<Value>, found: seq<Value>)

  /** Lines 152-157 on the payload dict `p`. */
  function Scan(p: Members): Result<Survey, PyError> {
    var ts :- Iterate(GetOr(p, "technologies", JArr([])));
    var names :- DeclaredNames(ts);
    var rels :- Iterate(GetOr(p, "relationships", JArr([])));
    var found :- Discover(rels, names, []);
    Success(Survey(names, found))
  }

  /** On success, the names are those declared by the technology objects,
      and the extra nodes are a set of the unknown endpoints covering every
      relationship's endpoints. */
  lemma ScanSpec(p: Members)
    requires Scan(p).Success?
    ensures Iterate(GetOr(p, "technologies", JArr([]))).Success?
    ensures Iterate(GetOr(p, "relationships", JArr([]))).Success?
    ensures var ts := Iterate(GetOr(p, "technologies", JArr([]))).value;
            var rels := Iterate(GetOr(p, "relationships", JArr([]))).value;
            var s := Scan(p).value;
            && DeclaredNames(ts) == Success(s.names)
            && NamesHashable(ts)
            && Discover(rels, s.names, []) == Success(s.found)
            && EndpointsHashable(rels)
            && Discovered(s.found, s.names)
            && (forall j :: 0 <= j < |rels| ==>
                  Covered(Endpoint(rels[j], "from"), s.names, s.found) && Covered(Endpoint(rels[j], "to"), s.names, s.found))
  {
    var ts := Iterate(GetOr(p, "technologies", JArr([]))).value;
    var rels := Iterate(GetOr(p, "relationships", JArr([]))).value;
    DeclaredNamesSpec(ts);
    var names := DeclaredNames(ts).value;
    DiscoverSpec(rels, names, []);
  }

  // ---------------------------------------------------------------------------
  // Lines 159-169: the extra nodes

  /** A name not yet declared, put in front of names that are not declared
      even with it, keeps the list free of equal pairs and of declared names. */
  lemma ExtrasFresh(x0: Value, names: seq<Value>, ex': seq<Value>)
    requires !PyIn(x0, names)
    requires forall x :: x in ex' ==> !PyIn(x, names + [x0])
    requires SetLike(ex')
    ensures forall x :: x in [x0] + ex' ==> !PyIn(x, names)
    ensures SetLike([x0] + ex')
  {
    var names' := names + [x0];
    var ex := [x0] + ex';
    forall x | x in ex ensures !PyIn(x, names) {
      if x != x0 {
        assert x in ex';
        forall i | 0 <= i < |names| ensures !PyEq(x, names[i]) {
          assert names'[i] == names[i];
          assert !PyEq(x, names'[i]);
        }
      }
    }
    forall i, j | 0 <= i < j < |ex| ensures !PyEq(ex[i], ex[j]) {
      if i == 0 {
        assert ex[j] == ex'[j - 1];
        assert ex[j] in ex';
        assert !PyIn(ex[j], names');
        assert names'[|names|] == x0;
        if PyEq(ex[i], ex[j]) {
          PyEqSymmetric(ex[i], ex[j]);
          assert false;
        }
      } else {
        assert ex[i] == ex'[i - 1] && ex[j] == ex'[j - 1];
      }
    }
  }

  /** Appending `order[0]` and then covering the rest covers all of `order`. */
  lemma ExtrasCover(order: seq<Value>, names: seq<Value>, ex': seq<Value>)
    requires order != []
    requires forall x :: x in order[1..] && Hashable(x) ==> PyIn(x, names + [order[0]] + ex')
    ensures forall x :: x in order && Hashable(x) ==> PyIn(x, names + ([order[0]] + ex'))
  {
    var x0 := order[0];
    var names' := names + [x0];
    var ex := [x0] + ex';
    forall x | x in order && Hashable(x) ensures PyIn(x, names + ex) {
      var all := names + ex;
      if x == x0 {
        assert all[|names|] == x0;
        assert PyEq(x, all[|names|]);
      } else {
        assert x in order[1..];
        var i :| 0 <= i < |names' + ex'| && PyEq(x, (names' + ex')[i]);
        assert (names' + ex')[i] == all[i];
      }
    }
  }

  /** The names the loop of lines 159-169 appends when it meets the extra
      nodes in the order `order`: each one that is not yet among `names`,
      which grows by every name appended. */
  function Extras(order: seq<Value>, names: seq<Value>): seq<Value>
    decreases |order|
  {
    if order == [] then []
    else if PyIn(order[0], names) then Extras(order[1..], names)
    else [order[0]] + Extras(order[1..], names + [order[0]])
  }

  /** Only names from `order` that are not already declared are appended, no
      two of them equal, and every hashable name in `order` ends up declared
      or appended. */
  lemma {:induction false} ExtrasSpec(order: seq<Value>, names: seq<Value>)
    ensures forall x :: x in Extras(order, names) ==> x in order && !PyIn(x, names)
    ensures SetLike(Extras(order, names))
    ensures forall x :: x in order && Hashable(x) ==> PyIn(x, names + Extras(order, names))
    decreases |order|
  {
    if order != [] {
      var x0 := order[0];
      var rest := order[1..];
      if PyIn(x0, names) {
        ExtrasSpec(rest, names);
        forall x | x in order && Hashable(x) ensures PyIn(x, names + Extras(order, names)) {
          if x == x0 {
            var i :| 0 <= i < |names| && PyEq(x, names[i]);
            assert (names + Extras(order, names))[i] == names[i];
          }
        }
      } else {
        var names' := names + [x0];
        ExtrasSpec(rest, names');
        var ex' := Extras(rest, names');
        var ex := Extras(order, names);
        assert ex == [x0] + ex';
        ExtrasFresh(x0, names, ex');
        ExtrasCover(order, names, ex');
      }
    }
  }

  /** When `order` lists the extra nodes, the appended names are exactly those nodes. */
  lemma ExtrasAreFound(order: seq<Value>, names: seq<Value>, found: seq<Value>)
    requires Discovered(found, names)
    requires forall x :: x in order <==> x in found
    ensures forall x :: x in Extras(order, names) <==> x in found
    ensures SetLike(Extras(order, names))
  {
    ExtrasSpec(order, names);
    var ex := Extras(order, names);
    forall x | x in found ensures x in ex {
      var a :| 0 <= a < |found| && found[a] == x;
      assert PyIn(x, names + ex);
      var i :| 0 <= i < |names + ex| && PyEq(x, (names + ex)[i]);
      if i < |names| {
        assert false;
      }
      var y := ex[i - |names|];
      assert PyEq(x, y);
      assert y in ex && y in order && y in found;
      var b :| 0 <= b < |found| && found[b] == y;
      if a < b {
        assert false;
      } else if b < a {
        PyEqSymmetric(x, y);
        assert false;
      }
    }
  }

  /** The technology object appended at lines 163-169 for the name `name`,
      with the provisional id `id`. */
  function ExternalNode(name: Value, id: int): Value {
    JObj([("name", name), ("category", JStr(ExternalCategory)), ("description", JStr(ExternalDescription)),
          ("node_id", JInt(id)), ("node_label", name)])
  }

  /** `node` is the appended node for `name` as the repair leaves it: an
      object whose name and label are `name` stripped, and whose category and
      description are the fixed texts of lines 165-166. */
  predicate ExternalShape(node: Value, name: Value) {
    && node.JObj?
    && Find(node.members, "name") == Some(TrimIfStr(name))
    && Find(node.members, "node_label") == Some(TrimIfStr(name))
    && Find(node.members, "category") == Some(JStr(ExternalCategory))
    && Find(node.members, "description") == Some(JStr(ExternalDescription))
  }

  /** `items` after appending one node per name of `extra`, each numbered one
      past the length of the list at the time it is appended (line 167). */
  function Appended(items: seq<Value>, extra: seq<Value>): seq<Value>
    decreases |extra|
  {
    if extra == [] then items
    else Appended(items + [ExternalNode(extra[0], |items| + 1)], extra[1..])
  }

  /** The original items stay a prefix, in order, and the `k`-th new node
      is the node for `extra[k]` numbered by its final position. */
  lemma {:induction false} AppendedSpec(items: seq<Value>, extra: seq<Value>)
    ensures |Appended(items, extra)| == |items| + |extra|
    ensures Appended(items, extra)[..|items|] == items
    ensures forall k :: 0 <= k < |extra| ==>
              Appended(items, extra)[|items| + k] == ExternalNode(extra[k], |items| + k + 1)
    decreases |extra|
  {
    if extra != [] {
      var items' := items + [ExternalNode(extra[0], |items| + 1)];
      AppendedSpec(items', extra[1..]);
      var r := Appended(items, extra);
      assert r[..|items'|] == items';
      assert r[..|items|] == items'[..|items|];
      forall k | 0 <= k < |extra| ensures r[|items| + k] == ExternalNode(extra[k], |items| + k + 1) {
        if k == 0 {
          assert r[|items|] == r[..|items'|][|items|];
        } else {
          assert r[|items'| + (k - 1)] == ExternalNode(extra[1..][k - 1], |items'| + (k - 1) + 1);
        }
      }
    }
  }

  /** The node appended for `extra[k]` sits right after the original items
      and the `k` nodes before it, numbered by that position. */
  lemma {:induction false} AppendedAt(items: seq<Value>, extra: seq<Value>, k: nat)
    requires k < |extra|
    ensures |Appended(items, extra)| == |items| + |extra|
    ensures Appended(items, extra)[|items| + k] == ExternalNode(extra[k], |items| + k + 1)
    decreases |extra|
  {
    var items' := items + [ExternalNode(extra[0], |items| + 1)];
    AppendedSpec(items', extra[1..]);
    if k == 0 {
      assert Appended(items, extra)[|items|] == Appended(items', extra[1..])[..|items'|][|items|];
    } else {
      AppendedAt(items', extra[1..], k - 1);
      assert |items'| + (k - 1) == |items| + k;
    }
  }

  /** Lines 159-169 on the payload dict `p`: appending to `p["technologies"]`
      raises when it is absent or not a list, but only once a name is
      actually appended. */
  function AddExtras(p: Members, order: seq<Value>, names: seq<Value>): (r: Result<Members, PyError>)
    ensures Extras(order, names) == [] ==> r == Success(p)
  {
    var extra := Extras(order, names);
    if extra == [] then Success(p)
    else
      match Find(p, "technologies")
      case None => Failure(KeyError("technologies"))
      case Some(tv) =>
        if tv.JArr? then Success(Put(p, "technologies", JArr(Appended(tv.items, extra))))
        else Failure(AttributeError)
  }

  /** Lines 152-169: the payload with its extra nodes appended. */
  function AddNodes(p: Members, arrange: seq<Value> -> seq<Value>): Result<Members, PyError> {
    var survey :- Scan(p);
    AddExtras(p, arrange(survey.found), survey.names)
  }

}
