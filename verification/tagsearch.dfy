/** The existing-tag lookup of `parseTags`: the leftmost match of the
    regular expression  name:"[^"]+"  in the current tag text, with the
    name read as a literal string.

    A match starting at `p` is unique: `[^"]+` cannot cross a quote, so it
    ends at the first quote after the opening one, and it needs at least one
    character before that quote. */
module TagSearch {
  import opened Optional

  /** `text[p..q+1]` is a match of  name:"[^"]+"  : the name, a colon, an
      opening quote, one or more non-quote characters, a closing quote at `q`. */
  predicate MatchAt(text: string, name: string, p: nat, q: nat)
  {
    && p + |name| + 2 < q < |text|
    && text[p..p + |name|] == name
    && text[p + |name|] == ':'
    && text[p + |name| + 1] == '"'
    && text[q] == '"'
    && forall k :: p + |name| + 2 <= k < q ==> text[k] != '"'
  }

  /** A match at `p` that no match starts to the left of. */
  ghost predicate LeftmostAt(text: string, name: string, p: nat, q: nat)
  {
    && MatchAt(text, name, p, q)
    && forall p': nat, q': nat :: p' < p ==> !MatchAt(text, name, p', q')
  }

  /** A match starting at `p` has only one possible end. */
  lemma MatchEndUnique(text: string, name: string, p: nat, q1: nat, q2: nat)
    requires MatchAt(text, name, p, q1) && MatchAt(text, name, p, q2)
    ensures q1 == q2
  {
  }

  /** A match starts with the first character of the name. */
  lemma MatchStartsWithName(text: string, name: string, p: nat, q: nat)
    requires MatchAt(text, name, p, q) && |name| > 0
    ensures text[p] == name[0]
  {
    assert text[p..p + |name|][0] == text[p];
  }

  /** The first quote at or after `k`. */
  function QuoteFrom(text: string, k: nat): (r: Option<nat>)
    requires k <= |text|
    ensures r.Some? ==> k <= r.value < |text| && text[r.value] == '"'
    ensures r.Some? ==> forall j :: k <= j < r.value ==> text[j] != '"'
    ensures r.None? ==> forall j :: k <= j < |text| ==> text[j] != '"'
    decreases |text| - k
  {
    if k == |text| then None
    else if text[k] == '"' then Some(k)
    else QuoteFrom(text, k + 1)
  }

  /** The end of the match starting at `p`, if one starts there. */
  function MatchEnd(text: string, name: string, p: nat): (r: Option<nat>)
    ensures r.Some? ==> MatchAt(text, name, p, r.value)
    ensures r.None? ==> forall q: nat :: !MatchAt(text, name, p, q)
  {
    var v := p + |name| + 2;
    if v <= |text| && text[p..p + |name|] == name && text[p + |name|] == ':' && text[p + |name| + 1] == '"' then
      match QuoteFrom(text, v)
      case Some(q) => if q > v then Some(q) else None
      case None => None
    else None
  }

  /** The leftmost match starting at or after `from`, as its start and end. */
  function FindFrom(text: string, name: string, from: nat): (r: Option<(nat, nat)>)
    ensures r.Some? ==> from <= r.value.0 && MatchAt(text, name, r.value.0, r.value.1)
    ensures r.Some? ==> forall p: nat, q: nat :: from <= p < r.value.0 ==> !MatchAt(text, name, p, q)
    ensures r.None? ==> forall p: nat, q: nat :: from <= p ==> !MatchAt(text, name, p, q)
    decreases |text| - from
  {
    if from >= |text| then None
    else
      match MatchEnd(text, name, from)
      case Some(q) => Some((from, q))
      case None => FindFrom(text, name, from + 1)
  }

  /** Go's `FindString` for  name:"[^"]+"  : the text of the leftmost match,
      or nothing when there is none. */
  function LeftmostMatch(text: string, name: string): (r: Option<string>)
    ensures r.Some? <==> exists p: nat, q: nat :: MatchAt(text, name, p, q)
    ensures r.Some? ==> exists p: nat, q: nat :: LeftmostAt(text, name, p, q) && r.value == text[p..q + 1]
  {
    match FindFrom(text, name, 0)
    case Some((p, q)) =>
      assert LeftmostAt(text, name, p, q);
      Some(text[p..q + 1])
    case None => None
  }

  /** `e` reads  name:"…"  : the name, a colon and a quote, then anything,
      then a closing quote. */
  predicate Framed(e: string, name: string)
  {
    && |e| >= |name| + 3
    && e[..|name|] == name
    && e[|name|..|name| + 2] == ":\""
    && e[|e| - 1] == '"'
  }

  /** The value between the quotes of a framed entry holds no quote. */
  predicate QuoteFreeValue(e: string, name: string)
    requires Framed(e, name)
  {
    forall k :: |name| + 2 <= k < |e| - 1 ==> e[k] != '"'
  }

  /** `m` on its own is a text  name:"[^"]+"  matches: a framed entry with a
      non-empty, quote-free value. */
  predicate MatchText(m: string, name: string)
  {
    Framed(m, name) && |m| >= |name| + 4 && QuoteFreeValue(m, name)
  }

  /** Every match is a non-empty value wrapped as  name:"value"  . */
  lemma MatchShape(text: string, name: string, p: nat, q: nat)
    requires MatchAt(text, name, p, q)
    ensures MatchText(text[p..q + 1], name)
  {
    var m := text[p..q + 1];
    assert m[|name|..|name| + 2] == [text[p + |name|], text[p + |name| + 1]];
  }

  /** The match texts are exactly the texts that match in full. */
  lemma MatchTextWhole(m: string, name: string)
    ensures MatchText(m, name) <==> |m| > 0 && MatchAt(m, name, 0, |m| - 1)
  {
  }
}
