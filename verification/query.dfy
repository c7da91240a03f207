/** Lines 29-36 and 239-265 of diagram_chat.py: cleaning a `@diagram` request
    down to the user's words, and folding the clarification answers into the
    query sent to retrieval. */
module Query {
  import Text

  /** The intent marker the chat front end puts before a diagram request. */
  const Marker: string := "@diagram"

  /** `strip_diagram_intent`: the stripped request without a leading marker
      (in any letter case), unless that leaves nothing, in which case the
      request exactly as given. */
  function StripDiagramIntent(query: string): (r: string)
    ensures r == [] <==> query == []
    ensures r == query || (Text.IsTrimmed(r) && |r| <= |query|)
    ensures query != [] && Text.Trim(query) == [] ==> r == query
    ensures Text.Trim(query) != [] && !Text.StartsWithIgnoringCase(Text.Trim(query), Marker) ==> r == Text.Trim(query)
  {
    if query == [] then ""
    else
      var q := Text.Trim(query);
      var rest := if Text.StartsWithIgnoringCase(q, Marker) then Text.Trim(q[|Marker|..]) else q;
      if rest == [] then query else rest
  }

  /** A request that starts with the marker, in any case, after any blanks
      loses the blanks, the marker and the blanks after it and after the words. */
  lemma MarkerRemoved(pre: string, tag: string, words: string, post: string)
    requires forall i :: 0 <= i < |pre| ==> Text.IsSpace(pre[i])
    requires forall i :: 0 <= i < |post| ==> Text.IsSpace(post[i])
    requires |tag| == |Marker| && Text.StartsWithIgnoringCase(tag, Marker)
    requires words != [] && !Text.IsSpace(words[|words| - 1])
    ensures StripDiagramIntent(pre + tag + words + post) == Text.Trim(words)
    ensures StripDiagramIntent(pre + tag + words + post) != []
  {
    var marked := tag + words;
    MarkedTrimmed(tag, words);
    assert pre + tag + words + post == pre + marked + post;
    Text.TrimPadded(pre, marked, post);
    assert marked[|Marker|..] == words;
    assert Text.Trim(words) != [] by {
      assert Text.IsSpace(words[|words| - 1]) == false;
    }
  }

  /** The marker followed by words that end in a non-blank is already stripped
      and starts with the marker. */
  lemma MarkedTrimmed(tag: string, words: string)
    requires |tag| == |Marker| && Text.StartsWithIgnoringCase(tag, Marker)
    requires words != [] && !Text.IsSpace(words[|words| - 1])
    ensures Text.IsTrimmed(tag + words)
    ensures Text.StartsWithIgnoringCase(tag + words, Marker)
  {
    var query := tag + words;
    assert tag[0] == '@' by {
      assert Text.AsciiLower(tag[0]) == Marker[0];
    }
    assert query[0] == tag[0];
    assert query[|query| - 1] == words[|words| - 1];
    forall i | 0 <= i < |Marker| ensures Text.AsciiLower(query[i]) == Marker[i] {
      assert query[i] == tag[i];
    }
  }

  /** The marker on its own, blanks around it or not, is not an empty
      request: it comes back exactly as given. */
  lemma MarkerAloneKept(pre: string, tag: string, post: string)
    requires forall i :: 0 <= i < |pre| ==> Text.IsSpace(pre[i])
    requires forall i :: 0 <= i < |post| ==> Text.IsSpace(post[i])
    requires |tag| == |Marker| && Text.StartsWithIgnoringCase(tag, Marker)
    ensures StripDiagramIntent(pre + tag + post) == pre + tag + post
  {
    assert Text.AsciiLower(tag[0]) == '@' && Text.AsciiLower(tag[|tag| - 1]) == 'm';
    assert Text.IsTrimmed(tag);
    Text.TrimPadded(pre, tag, post);
    assert tag[|Marker|..] == [];
  }

  // ---------------------------------------------------------------------------
  // Lines 239-265: the enhanced query

  /** The wording substituted for a known option value (lines 243-253). */
  const Keywords: seq<(string, string)> := [
    ("mobile-backend", "mobile backend"),
    ("web-application", "web app"),
    ("structured-db", "SQL database"),
    ("file-storage", "file storage"),
    ("small-1k", "small scale"),
    ("medium-10k", "medium scale"),
    ("basic-security", "basic security"),
    ("balanced", "balanced performance"),
    ("basic-uptime", "basic uptime")
  ]

  /** The value stored under `key` in the first entry of `table` that has it,
      or `key` itself when none does (lines 258-261). */
  function Lookup(table: seq<(string, string)>, key: string): string
    decreases |table|
  {
    if table == [] then key
    else if table[0].0 == key then table[0].1
    else Lookup(table[1..], key)
  }

  /** The first entry with the key decides the lookup. */
  lemma {:induction false} LookupFound(table: seq<(string, string)>, key: string, i: nat)
    requires i < |table| && table[i].0 == key
    requires forall j :: 0 <= j < i ==> table[j].0 != key
    ensures Lookup(table, key) == table[i].1
    decreases i
  {
    if i > 0 {
      LookupFound(table[1..], key, i - 1);
    }
  }

  /** A key the table lacks is kept as it is. */
  lemma {:induction false} LookupMissing(table: seq<(string, string)>, key: string)
    requires forall j :: 0 <= j < |table| ==> table[j].0 != key
    ensures Lookup(table, key) == key
    decreases |table|
  {
    if table != [] {
      LookupMissing(table[1..], key);
    }
  }

  /** The phrase an answer contributes. */
  function Phrase(answer: string): string {
    Lookup(Keywords, answer)
  }

  /** The phrases of the answers, in the order the answers were given (the
      dict's insertion order). */
  function Phrases(answers: seq<(string, string)>): (r: seq<string>)
    ensures |r| == |answers|
    decreases |answers|
  {
    if answers == [] then [] else [Phrase(answers[0].1)] + Phrases(answers[1..])
  }

  /** Each answer, and nothing else, gives the phrase at its own position. */
  lemma {:induction false} PhrasesAt(answers: seq<(string, string)>, n: nat)
    requires n < |answers|
    ensures Phrases(answers)[n] == Phrase(answers[n].1)
    decreases |answers|
  {
    if n > 0 {
      PhrasesAt(answers[1..], n - 1);
      assert Phrases(answers)[n] == Phrases(answers[1..])[n - 1];
    }
  }

  /** Phrasing a later answer appends its phrase and changes no earlier one. */
  lemma {:induction false} PhrasesSnoc(answers: seq<(string, string)>, x: (string, string))
    ensures Phrases(answers + [x]) == Phrases(answers) + [Phrase(x.1)]
    decreases |answers|
  {
    if answers != [] {
      assert (answers + [x])[1..] == answers[1..] + [x];
      PhrasesSnoc(answers[1..], x);
    } else {
      assert answers + [x] == [x];
    }
  }

  /** The words placed between the request and the cloud's name. */
  function AnswerText(answers: seq<(string, string)>): string {
    Text.Join(" ", Phrases(answers))
  }

  /** `enhance_query_with_answers`. */
  function EnhanceQuery(original: string, answers: seq<(string, string)>): (r: string)
    ensures |r| >= |original| + 14
    ensures r[..|original| + 1] == original + " "
    ensures r[|r| - 13..] == " Huawei Cloud"
  {
    var r := original + " " + AnswerText(answers) + " Huawei Cloud";
    assert r == (original + " ") + (AnswerText(answers) + " Huawei Cloud");
    assert r == (original + " " + AnswerText(answers)) + " Huawei Cloud";
    r
  }

  /** One more answer adds one more phrase at the end, after a space. */
  lemma AnswerTextSnoc(answers: seq<(string, string)>, x: (string, string))
    requires answers != []
    ensures AnswerText(answers + [x]) == AnswerText(answers) + " " + Phrase(x.1)
  {
    PhrasesSnoc(answers, x);
    Text.JoinSnoc(" ", Phrases(answers), Phrase(x.1));
  }

  /** Every answer's phrase appears in the enhanced query. */
  lemma EnhanceQueryMentions(original: string, answers: seq<(string, string)>, n: nat)
    requires n < |answers|
    ensures Text.Contains(EnhanceQuery(original, answers), Phrase(answers[n].1))
  {
    PhrasesAt(answers, n);
    Text.JoinContainsParts(" ", Phrases(answers), n);
    Text.ContainsInside(original + " ", AnswerText(answers), " Huawei Cloud", Phrase(answers[n].1));
  }

  /** No option value is listed twice, so each entry of the table is the one used. */
  lemma KeywordsDistinct()
    ensures forall i, j :: 0 <= i < j < |Keywords| ==> Keywords[i].0 != Keywords[j].0
  {
  }

  /** A known option value is replaced by its wording; any other answer is kept verbatim. */
  lemma PhraseSpec(answer: string)
    ensures forall i :: 0 <= i < |Keywords| && Keywords[i].0 == answer ==> Phrase(answer) == Keywords[i].1
    ensures (forall i :: 0 <= i < |Keywords| ==> Keywords[i].0 != answer) ==> Phrase(answer) == answer
  {
    KeywordsDistinct();
    forall i | 0 <= i < |Keywords| && Keywords[i].0 == answer ensures Phrase(answer) == Keywords[i].1 {
      LookupFound(Keywords, answer, i);
    }
    if forall i :: 0 <= i < |Keywords| ==> Keywords[i].0 != answer {
      LookupMissing(Keywords, answer);
    }
  }

  /** With no answers the middle is empty and the query keeps both spaces. */
  lemma EnhanceQueryNoAnswers(original: string)
    ensures EnhanceQuery(original, []) == original + "  Huawei Cloud"
  {
  }
}
