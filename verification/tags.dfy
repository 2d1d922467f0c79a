/** `parseTags` from easytags.go: the tag literal written on one field.

    For every requested name, in request order, the entry is the leftmost
    existing  name:"[^"]+"  text copied verbatim, or else a fresh
    name:"<snake-cased field name>"  entry. The entries are joined by single
    spaces and wrapped in backquotes; no requested name gives the empty
    string. Entries for names that were not requested are not kept. */
module Tags {
  import opened Optional
  import opened Text
  import opened Snake
  import opened TagSearch

  /** The shape every leftmost match has. */
  lemma LeftmostShape(text: string, name: string)
    requires LeftmostMatch(text, name).Some?
    ensures MatchText(LeftmostMatch(text, name).value, name)
  {
    var p: nat, q: nat :| LeftmostAt(text, name, p, q) && LeftmostMatch(text, name).value == text[p..q + 1];
    MatchShape(text, name, p, q);
  }

  /** The entry written for the requested `name`: the leftmost existing
      match, verbatim, or a fresh entry valued with the snake-cased field
      name. */
  function Entry(fieldName: string, current: string, name: string): string
  {
    match LeftmostMatch(current, name)
    case Some(m) => m
    case None => name + ":\"" + ToSnake(fieldName) + "\""
  }

  /** The entry for `name` is the text of the leftmost match of
      name:"[^"]+"  in the current tag when there is one, copied verbatim;
      when there is none it is generated from the field name. */
  lemma EntryChoice(fieldName: string, current: string, name: string)
    ensures (exists p: nat, q: nat :: MatchAt(current, name, p, q)) ==>
      exists p: nat, q: nat :: LeftmostAt(current, name, p, q) && Entry(fieldName, current, name) == current[p..q + 1]
    ensures (forall p: nat, q: nat :: !MatchAt(current, name, p, q)) ==>
      Entry(fieldName, current, name) == name + ":\"" + ToSnake(fieldName) + "\""
  {
    var r := LeftmostMatch(current, name);
    if r.Some? {
      var p: nat, q: nat :| LeftmostAt(current, name, p, q) && r.value == current[p..q + 1];
      assert Entry(fieldName, current, name) == r.value;
    }
  }

  /** Every entry reads  name:"value"  : it starts with the requested name,
      a colon and a quote, and ends with a quote. Its value is non-empty for
      a non-empty field name, and holds no quote when the field name has
      none. */
  lemma EntryShape(fieldName: string, current: string, name: string)
    ensures var e := Entry(fieldName, current, name);
      && Framed(e, name)
      && (|fieldName| > 0 ==> |e| >= |name| + 4)
      && ('"' !in fieldName ==> QuoteFreeValue(e, name))
  {
    if LeftmostMatch(current, name).Some? {
      LeftmostShape(current, name);
    } else {
      FreshEntryShape(fieldName, name);
    }
  }

  /** The shape of an entry generated from the field name. */
  lemma FreshEntryShape(fieldName: string, name: string)
    ensures var e := name + ":\"" + ToSnake(fieldName) + "\"";
      && Framed(e, name)
      && (|fieldName| > 0 ==> |e| >= |name| + 4)
      && ('"' !in fieldName ==> QuoteFreeValue(e, name))
  {
    var v := ToSnake(fieldName);
    var e := name + ":\"" + v + "\"";
    assert |v| >= |fieldName| by {
      SnakeShape(fieldName);
    }
    assert '"' !in fieldName ==> '"' !in v by {
      SnakeAlphabet(fieldName);
    }
    assert e[..|name|] == name;
    assert e[|name|..|name| + 2] == ":\"";
    forall k | |name| + 2 <= k < |e| - 1
      ensures e[k] == v[k - |name| - 2]
    {
    }
  }

  /** One entry per requested name, in request order. */
  function Entries(fieldName: string, current: string, names: seq<string>): (es: seq<string>)
    ensures |es| == |names|
    ensures forall i :: 0 <= i < |names| ==> es[i] == Entry(fieldName, current, names[i])
  {
    seq(|names|, i requires 0 <= i < |names| => Entry(fieldName, current, names[i]))
  }

  /** The new tag literal for a field called `fieldName` whose current tag
      text is `current`. */
  function ParseTags(fieldName: string, current: string, names: seq<string>): (r: string)
    ensures r == "" <==> |names| == 0
    ensures |names| > 0 ==> r == Wrap(Entries(fieldName, current, names))
  {
    if |names| == 0 then ""
    else Wrap(Entries(fieldName, current, names))
  }

  /** Entries joined by single spaces inside a pair of backquotes. */
  function Wrap(es: seq<string>): string
  {
    "`" + Join(es, " ") + "`"
  }

  /** Requesting one more name appends exactly its entry, after a space,
      and leaves the earlier entries as they were. */
  lemma ParseTagsAppend(fieldName: string, current: string, names: seq<string>, name: string)
    requires |names| > 0
    ensures var r := ParseTags(fieldName, current, names);
      ParseTags(fieldName, current, names + [name]) == r[..|r| - 1] + " " + Entry(fieldName, current, name) + "`"
  {
    EntriesAppend(fieldName, current, names, name);
    WrapAppend(Entries(fieldName, current, names), Entry(fieldName, current, name));
  }

  lemma EntriesAppend(fieldName: string, current: string, names: seq<string>, name: string)
    ensures Entries(fieldName, current, names + [name]) == Entries(fieldName, current, names) + [Entry(fieldName, current, name)]
  {
  }

  /** Adding an entry to a wrapped list puts it, after a space, in front of
      the closing backquote. */
  lemma WrapAppend(es: seq<string>, e: string)
    requires |es| > 0
    ensures var r := Wrap(es);
      Wrap(es + [e]) == r[..|r| - 1] + " " + e + "`"
  {
    var body := Join(es, " ");
    var r := Wrap(es);
    JoinAppend(es, e, " ");
    assert r[..|r| - 1] == "`" + body;
  }

  /** One requested name: its entry in backquotes. */
  lemma ParseTagsOne(fieldName: string, current: string, a: string)
    ensures ParseTags(fieldName, current, [a]) == "`" + Entry(fieldName, current, a) + "`"
  {
    assert Entries(fieldName, current, [a]) == [Entry(fieldName, current, a)];
  }

  /** The tag for two requested names, given their entries. */
  lemma ParseTagsOfTwo(fieldName: string, current: string, a: string, b: string, ea: string, eb: string)
    requires Entry(fieldName, current, a) == ea && Entry(fieldName, current, b) == eb
    ensures ParseTags(fieldName, current, [a, b]) == "`" + ea + " " + eb + "`"
  {
    ParseTagsTwo(fieldName, current, a, b);
  }

  /** Two requested names: their entries, space-separated, in backquotes. */
  lemma ParseTagsTwo(fieldName: string, current: string, a: string, b: string)
    ensures ParseTags(fieldName, current, [a, b]) == "`" + Entry(fieldName, current, a) + " " + Entry(fieldName, current, b) + "`"
  {
    var es := Entries(fieldName, current, [a, b]);
    assert es == [Entry(fieldName, current, a), Entry(fieldName, current, b)];
    assert es[1..] == [Entry(fieldName, current, b)];
    assert Join(es, " ") == Entry(fieldName, current, a) + " " + Entry(fieldName, current, b);
  }

  /** A match at `p` with none to its left is the leftmost match. */
  lemma LeftmostIs(text: string, name: string, p: nat, q: nat)
    requires MatchAt(text, name, p, q)
    requires forall p': nat, q': nat :: p' < p ==> !MatchAt(text, name, p', q')
    ensures LeftmostMatch(text, name) == Some(text[p..q + 1])
  {
    assert LeftmostMatch(text, name).Some?;
    var p0: nat, q0: nat :| LeftmostAt(text, name, p0, q0) && LeftmostMatch(text, name).value == text[p0..q0 + 1];
    assert p0 == p;
    MatchEndUnique(text, name, p, q, q0);
  }

  /** An entry in backquotes has no match at the opening backquote: a
      name matching there would consist of backquotes only, and the colon
      after it would have to be a backquote too. */
  lemma NoMatchAtBackquote(e: string, name: string, q: nat)
    requires Framed(e, name)
    ensures !MatchAt("`" + e + "`", name, 0, q)
  {
  }

  /** An entry alone in backquotes is found again by the search for its
      own name. */
  lemma WrappedEntryFound(e: string, name: string)
    requires MatchText(e, name)
    ensures LeftmostMatch("`" + e + "`", name) == Some(e)
  {
    var r := "`" + e + "`";
    assert MatchAt(r, name, 1, |e|) by {
      assert r[1..1 + |name|] == e[..|name|];
      assert r[1 + |name|] == e[|name|..|name| + 2][0];
      assert r[2 + |name|] == e[|name|..|name| + 2][1];
      forall k | 1 + |name| + 2 <= k < |e|
        ensures r[k] != '"'
      {
        assert r[k] == e[k - 1];
      }
    }
    forall p': nat, q': nat | p' < 1
      ensures !MatchAt(r, name, p', q')
    {
      NoMatchAtBackquote(e, name, q');
    }
    LeftmostIs(r, name, 1, |e|);
    assert r[1..|e| + 1] == e;
  }

  /** With a single requested name, applying `parseTags` to its own output
      changes nothing: the entry it wrote is the leftmost match next time.
      The field name is a non-empty identifier (no quote). */
  lemma ParseTagsIdempotent(fieldName: string, current: string, name: string)
    requires |fieldName| > 0 && '"' !in fieldName
    ensures var r := ParseTags(fieldName, current, [name]);
      ParseTags(fieldName, r, [name]) == r
  {
    var e := Entry(fieldName, current, name);
    EntryShape(fieldName, current, name);
    ParseTagsOne(fieldName, current, name);
    var r := ParseTags(fieldName, current, [name]);
    WrappedEntryFound(e, name);
    assert Entry(fieldName, r, name) == e;
    ParseTagsOne(fieldName, r, name);
  }
}
