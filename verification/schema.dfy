/** Lines 6-8 of diagram_chat.py, the payload schema shared by the generation
    prompt (lines 76-77) and the validator: one
    set of required top-level keys, one per technology item, one per relationship
    item. The prompt names the item keys through Python's list rendering. */
module Schema {
  import Text

  const RequiredKeys: seq<string> := ["technologies", "relationships", "explanation"]
  const TechItemKeys: seq<string> := ["name", "category", "description", "node_id", "node_label"]
  const RelItemKeys: seq<string> := ["from", "to", "type"]

  /** `repr(k)` for a key without quotes or backslashes. */
  function Quoted(k: string): string {
    "'" + k + "'"
  }

  /** `str(keys)` for a list of such keys: `['a', 'b']`. */
  function PyListRepr(keys: seq<string>): string {
    "[" + Text.Join(", ", seq(|keys|, i requires 0 <= i < |keys| => Quoted(keys[i]))) + "]"
  }

  /** The prompt's rule line for technology items. */
  function TechKeysRule(): string {
    "- \"technologies\": each item MUST include exactly these keys: " + PyListRepr(TechItemKeys) + "."
  }

  /** The prompt's rule line for relationship items. */
  function RelKeysRule(): string {
    "- \"relationships\": each item MUST include exactly these keys: " + PyListRepr(RelItemKeys) + "."
  }

  /** Every key in a rendered list appears quoted in the rendering. */
  lemma ListReprNamesEveryKey(keys: seq<string>, n: nat)
    requires n < |keys|
    ensures Text.Contains(PyListRepr(keys), Quoted(keys[n]))
  {
    var parts := seq(|keys|, i requires 0 <= i < |keys| => Quoted(keys[i]));
    Text.JoinContainsParts(", ", parts, n);
    Text.ContainsInside("[", Text.Join(", ", parts), "]", parts[n]);
  }

  /** A rule line built around a rendered key list names each of its keys. */
  lemma RuleNamesKey(lead: string, keys: seq<string>, k: string)
    requires k in keys
    ensures Text.Contains(lead + PyListRepr(keys) + ".", Quoted(k))
  {
    var n :| 0 <= n < |keys| && keys[n] == k;
    ListReprNamesEveryKey(keys, n);
    Text.ContainsInside(lead, PyListRepr(keys), ".", Quoted(k));
  }

  /** The prompt asks for every key the validator demands of an item: each
      technology key and each relationship key appears quoted in its rule line. */
  lemma PromptNamesValidatedKeys(k: string)
    ensures k in TechItemKeys ==> Text.Contains(TechKeysRule(), Quoted(k))
    ensures k in RelItemKeys ==> Text.Contains(RelKeysRule(), Quoted(k))
  {
    if k in TechItemKeys {
      RuleNamesKey("- \"technologies\": each item MUST include exactly these keys: ", TechItemKeys, k);
    }
    if k in RelItemKeys {
      RuleNamesKey("- \"relationships\": each item MUST include exactly these keys: ", RelItemKeys, k);
    }
  }
}
