/** chat_history.py: the chat history kept between questions, a list of the
    most recent query/answer pairs, at most `max_history` of them, and its
    rendering as prompt context. The language model the class holds is only
    consulted when the history is not empty; here its judgement is a
    parameter. */
module History {
  import opened Wrappers
  import Text

  /** One `{"query": …, "answer": …}` entry. */
  datatype Exchange = Exchange(query: string, answer: string)

  /** The state of a `ChatHistory`: its entries, oldest first, and its bound. */
  datatype ChatHistory = ChatHistory(entries: seq<Exchange>, maxHistory: int)

  /** The constructor, lines 13-16: an empty history with the given bound. */
  function Fresh(maxHistory: int): (h: ChatHistory)
    ensures h.entries == [] && h.maxHistory == maxHistory
  {
    ChatHistory([], maxHistory)
  }

  /** `add_exchange`, lines 18-22: the pair goes last; when that makes the
      list longer than the bound, the oldest entry goes. */
  function AddExchange(h: ChatHistory, query: string, answer: string): (r: ChatHistory)
    ensures r.maxHistory == h.maxHistory
    ensures h.maxHistory >= 1 ==> r.entries != [] && r.entries[|r.entries| - 1] == Exchange(query, answer)
    ensures |h.entries| < h.maxHistory ==> r.entries == h.entries + [Exchange(query, answer)]
    ensures |h.entries| >= h.maxHistory && h.entries != [] ==> r.entries == h.entries[1..] + [Exchange(query, answer)]
    ensures |h.entries| >= h.maxHistory && h.entries == [] ==> r.entries == []
  {
    var grown := h.entries + [Exchange(query, answer)];
    if |grown| > h.maxHistory then ChatHistory(grown[1..], h.maxHistory)
    else ChatHistory(grown, h.maxHistory)
  }

  /** `clear`, lines 58-60: no entries, same bound. */
  function Clear(h: ChatHistory): (r: ChatHistory)
    ensures r.entries == [] && r.maxHistory == h.maxHistory
  {
    ChatHistory([], h.maxHistory)
  }

  /** A history within its bound; a negative bound admits only the empty one. */
  predicate Bounded(h: ChatHistory) {
    |h.entries| <= if h.maxHistory < 0 then 0 else h.maxHistory
  }

  /** Adding an exchange keeps the history within its bound, and clearing does too. */
  lemma AddExchangeBounded(h: ChatHistory, query: string, answer: string)
    requires Bounded(h)
    ensures Bounded(AddExchange(h, query, answer))
    ensures Bounded(Clear(h))
  {
  }

  /** Adding the exchanges `xs` one after the other, as `query_rag_system`
      does after each answer. */
  function AddAll(h: ChatHistory, xs: seq<Exchange>): ChatHistory
    decreases |xs|
  {
    if xs == [] then h
    else AddAll(AddExchange(h, xs[0].query, xs[0].answer), xs[1..])
  }

  /** Adding one more exchange after a batch is adding the longer batch. */
  lemma {:induction false} AddAllSnoc(h: ChatHistory, xs: seq<Exchange>, x: Exchange)
    ensures AddAll(h, xs + [x]) == AddExchange(AddAll(h, xs), x.query, x.answer)
    decreases |xs|
  {
    if xs == [] {
      assert xs + [x] == [x];
    } else {
      assert (xs + [x])[1..] == xs[1..] + [x];
      AddAllSnoc(AddExchange(h, xs[0].query, xs[0].answer), xs[1..], x);
    }
  }

  /** A fresh history holds, after any run of exchanges, exactly the most
      recent `max_history` of them (all of them when there are fewer), in the
      order they were added. */
  lemma {:induction false} KeepsMostRecent(m: nat, xs: seq<Exchange>)
    ensures AddAll(Fresh(m), xs).maxHistory == m
    ensures AddAll(Fresh(m), xs).entries == xs[|xs| - (if |xs| < m then |xs| else m)..]
    decreases |xs|
  {
    if xs != [] {
      var init := xs[..|xs| - 1];
      var x := xs[|xs| - 1];
      assert xs == init + [x];
      KeepsMostRecent(m, init);
      AddAllSnoc(Fresh(m), init, x);
      var kept := init[|init| - (if |init| < m then |init| else m)..];
      var g := kept + [x];
      if |kept| + 1 > m {
        assert g[1..] == xs[|xs| - (if |xs| < m then |xs| else m)..];
      } else {
        assert g == xs[|xs| - (if |xs| < m then |xs| else m)..];
      }
    }
  }

  // ---------------------------------------------------------------------------
  // Lines 24-31: the history as prompt context

  /** How many characters of an answer the context keeps. */
  const AnswerCut: nat := 200

  /** The block for the `i`-th entry (counting from 1): its query, and its
      answer cut to 200 characters and followed by "...". */
  function Entry(i: nat, e: Exchange): string {
    "Q" + Text.NatToString(i) + ":" + EntryTail(i, e)
  }

  /** What follows the number on the query line. */
  function EntryTail(i: nat, e: Exchange): string {
    " " + e.query + "\nA" + Text.NatToString(i) + ": " + Text.Take(e.answer, AnswerCut) + "..."
  }

  /** The blocks of `es`, numbered from `first`. */
  function Entries(es: seq<Exchange>, first: nat): (r: seq<string>)
    ensures |r| == |es|
    decreases |es|
  {
    if es == [] then [] else [Entry(first, es[0])] + Entries(es[1..], first + 1)
  }

  /** The block at position `n` is that of entry `n`, numbered `first + n`. */
  lemma {:induction false} EntriesAt(es: seq<Exchange>, first: nat, n: nat)
    requires n < |es|
    ensures Entries(es, first)[n] == Entry(first + n, es[n])
    decreases |es|
  {
    if n > 0 {
      EntriesAt(es[1..], first + 1, n - 1);
      assert Entries(es, first)[n] == Entries(es[1..], first + 1)[n - 1];
    }
  }

  /** `get_history_context`: "" for an empty history, otherwise the blocks
      joined by newlines. */
  function HistoryContext(h: ChatHistory): string {
    if h.entries == [] then "" else Text.Join("\n", Entries(h.entries, 1))
  }

  /** The context is empty exactly when the history is, and then it holds
      each entry's block, numbered from 1 in the order of the history. */
  lemma HistoryContextSpec(h: ChatHistory, n: nat)
    ensures HistoryContext(h) == "" <==> h.entries == []
    ensures n < |h.entries| ==> Text.Contains(HistoryContext(h), Entry(n + 1, h.entries[n]))
  {
    if h.entries != [] {
      var blocks := Entries(h.entries, 1);
      EntriesAt(h.entries, 1, 0);
      JoinNotEmpty("\n", blocks);
      if n < |h.entries| {
        EntriesAt(h.entries, 1, n);
        assert 1 + n == n + 1;
        Text.JoinContainsParts("\n", blocks, n);
      }
    }
  }

  /** A join whose first part is not empty is not empty. */
  lemma JoinNotEmpty(sep: string, parts: seq<string>)
    requires parts != [] && parts[0] != []
    ensures Text.Join(sep, parts) != []
  {
    if |parts| > 1 {
      assert Text.Join(sep, parts) == parts[0] + sep + Text.Join(sep, parts[1..]);
    }
  }

  /** Every block is its query line, then the answer line: the number, the
      answer cut to its first 200 characters, and "...". So no more than 200
      characters of an answer are shown. */
  lemma EntryShape(i: nat, e: Exchange)
    ensures var s := Entry(i, e);
            var head := "Q" + Text.NatToString(i) + ": " + e.query + "\nA" + Text.NatToString(i) + ": ";
            var cut := Text.Take(e.answer, AnswerCut);
            && |head| + |cut| + 3 == |s|
            && s[..|head|] == head
            && s[|head|..] == cut + "..."
            && s[|s| - |cut| - 3..] == cut + "..."
            && cut <= e.answer
            && |cut| == if |e.answer| < 200 then |e.answer| else 200
  {
    var head := "Q" + Text.NatToString(i) + ": " + e.query + "\nA" + Text.NatToString(i) + ": ";
    var cut := Text.Take(e.answer, AnswerCut);
    assert Entry(i, e) == head + (cut + "...");
  }

  /** Blocks of different entries are told apart by their numbers: the
      number ends at the first ':' of the block, and digits never are ':'. */
  lemma EntryNumbered(i: nat, j: nat, e: Exchange, f: Exchange)
    requires Entry(i, e) == Entry(j, f)
    ensures i == j
  {
    var a := Text.NatToString(i);
    var b := Text.NatToString(j);
    EntryAfterQ(i, e);
    EntryAfterQ(j, f);
    NumberBeforeColon(a, b, EntryTail(i, e), EntryTail(j, f));
    Text.NatToStringInjective(i, j);
  }

  /** Past its leading 'Q' a block is its number, a colon and the tail. */
  lemma EntryAfterQ(i: nat, e: Exchange)
    ensures Entry(i, e)[1..] == Text.NatToString(i) + ":" + EntryTail(i, e)
  {
    assert Entry(i, e) == "Q" + (Text.NatToString(i) + ":" + EntryTail(i, e));
  }

  /** Two strings that start with a colon-free word and a colon agree on that word. */
  lemma NumberBeforeColon(a: string, b: string, u: string, v: string)
    requires forall k :: 0 <= k < |a| ==> a[k] != ':'
    requires forall k :: 0 <= k < |b| ==> b[k] != ':'
    requires a + ":" + u == b + ":" + v
    ensures a == b
  {
    var s := a + ":" + u;
    ColonAt(a, u);
    ColonAt(b, v);
    assert |a| == |b|;
    assert a == s[..|a|];
    assert b == s[..|b|];
  }

  /** In `w + ":" + t` the word fills the first places and the colon follows. */
  lemma ColonAt(w: string, t: string)
    ensures (w + ":" + t)[|w|] == ':'
    ensures forall k :: 0 <= k < |w| ==> (w + ":" + t)[k] == w[k]
  {
  }

  /** Adding an exchange within the bound appends one block to a non-empty
      context, after a newline; the earlier blocks are unchanged. */
  lemma HistoryContextGrows(h: ChatHistory, query: string, answer: string)
    requires h.entries != [] && |h.entries| + 1 <= h.maxHistory
    ensures HistoryContext(AddExchange(h, query, answer))
              == HistoryContext(h) + "\n" + Entry(|h.entries| + 1, Exchange(query, answer))
  {
    var x := Exchange(query, answer);
    EntriesSnoc(h.entries, 1, x);
    Text.JoinSnoc("\n", Entries(h.entries, 1), Entry(1 + |h.entries|, x));
    assert 1 + |h.entries| == |h.entries| + 1;
  }

  /** Numbering one more entry appends its block. */
  lemma {:induction false} EntriesSnoc(es: seq<Exchange>, first: nat, x: Exchange)
    ensures Entries(es + [x], first) == Entries(es, first) + [Entry(first + |es|, x)]
    decreases |es|
  {
    if es == [] {
      assert es + [x] == [x];
    } else {
      assert (es + [x])[1..] == es[1..] + [x];
      EntriesSnoc(es[1..], first + 1, x);
      assert first + 1 + |es[1..]| == first + |es|;
    }
  }

  // ---------------------------------------------------------------------------
  // Lines 33-56: whether a query follows on from the previous one

  /** `is_related_to_previous`: with no history the answer is `(False, None)`;
      otherwise the language model judges the last query against the current
      one (`judge` stands for the prompt, the model call and the parsing of
      its reply, lines 38-56). */
  function IsRelatedToPrevious(h: ChatHistory, current: string, judge: (string, string) -> (bool, Option<string>))
    : (bool, Option<string>)
  {
    if h.entries == [] then (false, None)
    else judge(h.entries[|h.entries| - 1].query, current)
  }

  /** With an empty history the answer is `(False, None)` whatever the model
      would have said, so the model is never asked; otherwise the model sees
      the most recent query. */
  lemma RelatedNeedsHistory(h: ChatHistory, current: string,
                            judge: (string, string) -> (bool, Option<string>),
                            other: (string, string) -> (bool, Option<string>))
    ensures h.entries == [] ==> IsRelatedToPrevious(h, current, judge) == (false, None)
    ensures h.entries == [] ==> IsRelatedToPrevious(h, current, judge) == IsRelatedToPrevious(h, current, other)
    ensures h.entries != [] ==>
              (IsRelatedToPrevious(h, current, judge) == IsRelatedToPrevious(h, current, other) <==>
               judge(h.entries[|h.entries| - 1].query, current) == other(h.entries[|h.entries| - 1].query, current))
  {
  }

  /** Once a clear has emptied the history, nothing follows on from anything. */
  lemma ClearForgets(h: ChatHistory, current: string, judge: (string, string) -> (bool, Option<string>))
    ensures IsRelatedToPrevious(Clear(h), current, judge) == (false, None)
    ensures HistoryContext(Clear(h)) == ""
  {
  }
}
