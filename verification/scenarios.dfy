/** Worked examples of the model: a struct shaped like the one the test
    file checks, and inputs that show how the existing-tag search behaves. */
module Scenarios {
  import opened Optional
  import opened Snake
  import opened TagSearch
  import opened Tags
  import opened Fields

  /** An existing `json:"-"` tag is kept as it is. */
  lemma KeepsExcludedTag()
    ensures ParseTags("Field1", "`json:\"-\"`", ["json"]) == "`json:\"-\"`"
  {
    var t := "`json:\"-\"`";
    LeftmostIs(t, "json", 1, 8);
    assert Entry("Field1", t, "json") == "json:\"-\"";
    ParseTagsOne("Field1", t, "json");
  }

  /** A field without a tag gets a snake-cased json tag. */
  lemma GeneratesSnakeTag()
    ensures ParseTags("TestField2", "", ["json"]) == "`json:\"test_field2\"`"
  {
    SnakeExampleTestField2();
    assert Entry("TestField2", "", "json") == "json:\"test_field2\"";
    ParseTagsOne("TestField2", "", "json");
  }

  /** An empty value does not count as an existing tag: it is regenerated. */
  lemma RegeneratesEmptyValue()
    ensures ParseTags("ID", "`json:\"\"`", ["json"]) == "`json:\"id\"`"
  {
    var t := "`json:\"\"`";
    forall p: nat, q: nat
      ensures !MatchAt(t, "json", p, q)
    {
    }
    SnakeExampleID();
    assert Entry("ID", t, "json") == "json:\"id\"";
    ParseTagsOne("ID", t, "json");
  }

  /** The search is not anchored at a key boundary: `myjson:"x"` supplies
      the json entry. */
  lemma MatchesInsideLongerKey()
    ensures ParseTags("ID", "`myjson:\"x\"`", ["json"]) == "`json:\"x\"`"
  {
    var t := "`myjson:\"x\"`";
    LeftmostIs(t, "json", 3, 10);
    assert Entry("ID", t, "json") == "json:\"x\"";
    ParseTagsOne("ID", t, "json");
  }

  lemma CustomJsonMatch()
    ensures LeftmostMatch("`custom:\"c\" json:\"etag\"`", "json") == Some("json:\"etag\"")
  {
    var t := "`custom:\"c\" json:\"etag\"`";
    assert t[12..23] == "json:\"etag\"";
    assert 'j' !in t[..12];
    forall p: nat, q: nat | p < 12
      ensures !MatchAt(t, "json", p, q)
    {
      assert t[..12][p] == t[p];
      if MatchAt(t, "json", p, q) {
        MatchStartsWithName(t, "json", p, q);
      }
    }
    LeftmostIs(t, "json", 12, 22);
  }

  lemma CustomJsonNoXml()
    ensures Entry("ID", "`custom:\"c\" json:\"etag\"`", "xml") == "xml:\"id\""
  {
    NoXmlMatch();
    SnakeExampleID();
  }

  lemma NoXmlMatch()
    ensures LeftmostMatch("`custom:\"c\" json:\"etag\"`", "xml") == None
  {
    var t := "`custom:\"c\" json:\"etag\"`";
    assert 'x' !in t;
    forall p: nat, q: nat
      ensures !MatchAt(t, "xml", p, q)
    {
      if MatchAt(t, "xml", p, q) {
        MatchStartsWithName(t, "xml", p, q);
      }
    }
  }

  /** Entries for names that were not requested are dropped, and new
      entries follow the request order. */
  lemma DropsUnrequestedEntries()
    ensures ParseTags("ID", "`custom:\"c\" json:\"etag\"`", ["json", "xml"]) == "`json:\"etag\" xml:\"id\"`"
  {
    assert "`" + "json:\"etag\"" + " " + "xml:\"id\"" + "`" == "`json:\"etag\" xml:\"id\"`";
    CustomJsonMatch();
    CustomJsonNoXml();
    ParseTagsOfTwo("ID", "`custom:\"c\" json:\"etag\"`", "json", "xml", "json:\"etag\"", "xml:\"id\"");
  }

  lemma OnePassMatches()
    ensures LeftmostMatch("`json:\"x db:\"`", "json") == Some("json:\"x db:\"")
    ensures LeftmostMatch("`json:\"x db:\"`", "db") == None
  {
    var t := "`json:\"x db:\"`";
    assert t[..9] == "`json:\"x " && t[10..] == "b:\"`";
    assert 'd' !in t[..9] && 'd' !in t[10..];
    assert t[1..13] == "json:\"x db:\"";
    LeftmostIs(t, "json", 1, 12);
    forall p: nat, q: nat
      ensures !MatchAt(t, "db", p, q)
    {
      if MatchAt(t, "db", p, q) {
        MatchStartsWithName(t, "db", p, q);
      }
    }
  }

  lemma OnePassEntries()
    ensures Entry("ID", "`json:\"x db:\"`", "json") == "json:\"x db:\""
    ensures Entry("ID", "`json:\"x db:\"`", "db") == "db:\"id\""
  {
    OnePassMatches();
    SnakeExampleID();
  }

  lemma TwoPassesJson()
    ensures LeftmostMatch("`json:\"x db:\" db:\"id\"`", "json") == Some("json:\"x db:\"")
  {
    var m := "json:\"x db:\"";
    var u := "`" + m + " db:\"id\"`";
    assert u == "`json:\"x db:\" db:\"id\"`";
    assert u[1..13] == m;
    assert MatchAt(u, "json", 1, 12);
    LeftmostIs(u, "json", 1, 12);
  }

  lemma TwoPassesDb()
    ensures LeftmostMatch("`json:\"x db:\" db:\"id\"`", "db") == Some("db:\" db:\"")
  {
    var u := "`json:\"x db:\" db:\"id\"`";
    assert u[9..18] == "db:\" db:\"";
    assert 'd' !in u[..9];
    forall p: nat, q: nat | p < 9
      ensures !MatchAt(u, "db", p, q)
    {
      assert u[..9][p] == u[p];
      if MatchAt(u, "db", p, q) {
        MatchStartsWithName(u, "db", p, q);
      }
    }
    assert MatchAt(u, "db", 9, 17);
    LeftmostIs(u, "db", 9, 17);
  }

  /** With two names the tool is not idempotent: the second pass finds a
      `db:"` match that starts inside the json value and runs into the
      entry the first pass appended. */
  lemma TwoNamesNotIdempotent()
    ensures ParseTags("ID", "`json:\"x db:\"`", ["json", "db"]) == "`json:\"x db:\" db:\"id\"`"
    ensures ParseTags("ID", "`json:\"x db:\" db:\"id\"`", ["json", "db"]) == "`json:\"x db:\" db:\" db:\"`"
  {
    assert "`" + "json:\"x db:\"" + " " + "db:\"id\"" + "`" == "`json:\"x db:\" db:\"id\"`";
    assert "`" + "json:\"x db:\"" + " " + "db:\" db:\"" + "`" == "`json:\"x db:\" db:\" db:\"`";
    OnePassEntries();
    ParseTagsOfTwo("ID", "`json:\"x db:\"`", "json", "db", "json:\"x db:\"", "db:\"id\"");
    TwoPassesJson();
    TwoPassesDb();
    ParseTagsOfTwo("ID", "`json:\"x db:\" db:\"id\"`", "json", "db", "json:\"x db:\"", "db:\" db:\"");
  }

  lemma TwoFreshEntries()
    ensures ParseTags("ID", "", ["json", "xml"]) == "`json:\"id\" xml:\"id\"`"
  {
    assert "`" + "json:\"id\"" + " " + "xml:\"id\"" + "`" == "`json:\"id\" xml:\"id\"`";
    SnakeExampleID();
    assert Entry("ID", "", "json") == "json:\"id\"";
    assert Entry("ID", "", "xml") == "xml:\"id\"";
    ParseTagsOfTwo("ID", "", "json", "xml", "json:\"id\"", "xml:\"id\"");
  }

  lemma TwoFreshJson()
    ensures LeftmostMatch("`json:\"id\" xml:\"id\"`", "json") == Some("json:\"id\"")
  {
    var m := "json:\"id\"";
    var u := "`" + m + " xml:\"id\"`";
    assert u == "`json:\"id\" xml:\"id\"`";
    assert u[1..10] == m;
    assert MatchAt(u, "json", 1, 9);
    LeftmostIs(u, "json", 1, 9);
  }

  lemma TwoFreshXml()
    ensures LeftmostMatch("`json:\"id\" xml:\"id\"`", "xml") == Some("xml:\"id\"")
  {
    var h := "`json:\"id\" ";
    var m := "xml:\"id\"";
    var u := h + m + "`";
    assert u == "`json:\"id\" xml:\"id\"`";
    assert u[..11] == h && u[11..19] == m;
    assert 'x' !in h;
    forall p: nat, q: nat | p < 11
      ensures !MatchAt(u, "xml", p, q)
    {
      assert h[p] == u[p];
      if MatchAt(u, "xml", p, q) {
        MatchStartsWithName(u, "xml", p, q);
      }
    }
    assert MatchAt(u, "xml", 11, 18);
    LeftmostIs(u, "xml", 11, 18);
  }

  lemma TwoFreshSecondPass()
    ensures ParseTags("ID", "`json:\"id\" xml:\"id\"`", ["json", "xml"]) == "`json:\"id\" xml:\"id\"`"
  {
    assert "`" + "json:\"id\"" + " " + "xml:\"id\"" + "`" == "`json:\"id\" xml:\"id\"`";
    TwoFreshJson();
    TwoFreshXml();
    ParseTagsOfTwo("ID", "`json:\"id\" xml:\"id\"`", "json", "xml", "json:\"id\"", "xml:\"id\"");
  }

  /** Several names do not always break idempotence: two fresh entries are
      found again, each by its own name, on the second pass. */
  lemma TwoNamesSometimesIdempotent()
    ensures ParseTags("ID", "", ["json", "xml"]) == "`json:\"id\" xml:\"id\"`"
    ensures ParseTags("ID", "`json:\"id\" xml:\"id\"`", ["json", "xml"]) == "`json:\"id\" xml:\"id\"`"
  {
    TwoFreshEntries();
    TwoFreshSecondPass();
  }

  /** A struct shaped like the one the test file checks: `Field1` keeps its
      tag, `TestField2` gets a fresh one, the embedded field stays without a
      tag. */
  lemma TestStruct()
    ensures ProcessTags([Field(["Field1"], Some("`json:\"-\"`")), Field(["TestField2"], None), Field([], None)], ["json"])
         == [Field(["Field1"], Some("`json:\"-\"`")), Field(["TestField2"], Some("`json:\"test_field2\"`")), Field([], None)]
  {
    KeepsExcludedTag();
    GeneratesSnakeTag();
  }
}
