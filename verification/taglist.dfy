/** The tag-name list `main` in easytags.go builds from its arguments: with
    exactly two arguments the second is split on commas and every piece is
    trimmed of surrounding white space; when that leaves no name and removal
    was not asked for, the list is the single default name "json". With no
    argument at all the usage text is printed instead. */
module TagList {
  import opened Optional
  import opened Chars
  import opened Text

  const DefaultTag: string := "json"

  /** Go's `strings.Split` with a one-character separator. */
  function Split(s: string, sep: char): (parts: seq<string>)
    ensures |parts| == Occurrences(s, sep) + 1
    ensures forall i :: 0 <= i < |parts| ==> sep !in parts[i]
    ensures Join(parts, [sep]) == s
  {
    if |s| == 0 then [""]
    else
      var rest := Split(s[1..], sep);
      if s[0] == sep then
        assert ([""] + rest)[1..] == rest;
        [""] + rest
      else
        var parts := [[s[0]] + rest[0]] + rest[1..];
        assert |rest| > 1 ==> parts[1..] == rest[1..] && rest == [rest[0]] + rest[1..];
        assert s == [s[0]] + s[1..];
        parts
  }

  predicate AllSpace(s: string)
  {
    forall k :: 0 <= k < |s| ==> IsSpace(s[k])
  }

  /** Neither end of `s` is white space. */
  predicate Trimmed(s: string)
  {
    |s| == 0 || (!IsSpace(s[0]) && !IsSpace(s[|s| - 1]))
  }

  /** Length of the white-space run at the start of `s`. */
  function LeadingSpace(s: string): (n: nat)
    ensures n <= |s| && AllSpace(s[..n])
    ensures n < |s| ==> !IsSpace(s[n])
  {
    if |s| == 0 || !IsSpace(s[0]) then 0
    else
      var n := 1 + LeadingSpace(s[1..]);
      assert forall k :: 1 <= k < n ==> s[k] == s[1..][k - 1];
      n
  }

  /** Where the white-space run at the end of `s` begins. */
  function TrailingSpace(s: string): (n: nat)
    ensures n <= |s| && AllSpace(s[n..])
    ensures n > 0 ==> !IsSpace(s[n - 1])
  {
    if |s| == 0 || !IsSpace(s[|s| - 1]) then |s|
    else
      var n := TrailingSpace(s[..|s| - 1]);
      assert forall k :: n <= k < |s| - 1 ==> s[k] == s[..|s| - 1][k];
      n
  }

  /** Go's `strings.TrimSpace`: `s` without its leading and trailing white
      space. */
  function TrimSpace(s: string): (r: string)
    ensures Trimmed(r)
    ensures forall k :: 0 <= k < |r| ==> r[k] in s
    ensures exists i :: 0 <= i <= |s| - |r| && s[i..i + |r|] == r && AllSpace(s[..i]) && AllSpace(s[i + |r|..])
  {
    var i := LeadingSpace(s);
    var t := s[i..];
    var j := TrailingSpace(t);
    var r := t[..j];
    assert s[i..i + |r|] == r;
    assert s[i + |r|..] == t[j..];
    assert Trimmed(r) by {
      if |r| > 0 {
        assert r[0] == s[i];
      }
    }
    r
  }

  /** Trimming a string that has no white space at either end keeps it. */
  lemma TrimTrimmed(s: string)
    requires Trimmed(s)
    ensures TrimSpace(s) == s
  {
    var r := TrimSpace(s);
    var i :| 0 <= i <= |s| - |r| && s[i..i + |r|] == r && AllSpace(s[..i]) && AllSpace(s[i + |r|..]);
  }

  /** Trimming twice is trimming once. */
  lemma TrimIdempotent(s: string)
    ensures TrimSpace(TrimSpace(s)) == TrimSpace(s)
  {
    TrimTrimmed(TrimSpace(s));
  }

  /** Every comma-separated piece, trimmed. */
  function TrimAll(parts: seq<string>): (r: seq<string>)
    ensures |r| == |parts|
    ensures forall i :: 0 <= i < |parts| ==> r[i] == TrimSpace(parts[i])
  {
    seq(|parts|, i requires 0 <= i < |parts| => TrimSpace(parts[i]))
  }

  /** The tag names `main` hands to every file, or nothing when it prints
      the usage text. */
  function TagNames(args: seq<string>, remove: bool): (r: Option<seq<string>>)
    ensures r.None? <==> |args| == 0
    ensures |args| == 2 ==> r == Some(TrimAll(Split(args[1], ',')))
    ensures |args| == 2 ==> |r.value| == Occurrences(args[1], ',') + 1
    ensures |args| == 2 ==> forall i :: 0 <= i < |r.value| ==> ',' !in r.value[i] && Trimmed(r.value[i])
    ensures |args| >= 1 && |args| != 2 ==> r == Some(if remove then [] else [DefaultTag])
  {
    if |args| < 1 then None
    else
      var provided := if |args| == 2 then TrimAll(Split(args[1], ',')) else [];
      Some(if |provided| == 0 && !remove then [DefaultTag] else provided)
  }

  /** A list argument without white space is read back exactly: joining the
      names with commas gives the argument. */
  lemma TagNamesRoundTrip(file: string, list: string, remove: bool)
    requires forall k :: 0 <= k < |list| ==> !IsSpace(list[k])
    ensures Join(TagNames([file, list], remove).value, ",") == list
  {
    var parts := Split(list, ',');
    forall i | 0 <= i < |parts|
      ensures TrimSpace(parts[i]) == parts[i]
    {
      JoinContains(parts, [','], i);
      TrimTrimmed(parts[i]);
    }
    assert TrimAll(parts) == parts;
  }

  /** The default "json" is used only when the list argument is missing:
      an empty list argument is one empty name. */
  lemma EmptyListArgument(file: string, remove: bool)
    ensures TagNames([file, ""], remove) == Some([""])
  {
    assert Split("", ',') == [""];
    assert TrimSpace("") == "";
    assert TrimAll([""]) == [""];
  }
}
