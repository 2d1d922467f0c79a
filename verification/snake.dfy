/** `ToSnake` from easytags.go: a rune-by-rune snake-case converter.

    Rune `i` is preceded by an underscore when it is upper case, is not the
    first rune, and either the next rune or the previous rune is lower case;
    every rune is then lower-cased. */
module Snake {
  import opened Chars

  /** Whether `ToSnake` writes an underscore in front of rune `i`. */
  predicate BreakBefore(s: string, i: nat)
    requires i < |s|
  {
    i > 0 && IsUpper(s[i]) && ((i + 1 < |s| && IsLower(s[i + 1])) || IsLower(s[i - 1]))
  }

  /** Number of underscores written in front of runes `0 .. n-1`. */
  function Breaks(s: string, n: nat): nat
    requires n <= |s|
  {
    if n == 0 then 0 else Breaks(s, n - 1) + (if BreakBefore(s, n - 1) then 1 else 0)
  }

  /** What the loop appends for rune `i`. */
  function Piece(s: string, i: nat): string
    requires i < |s|
  {
    (if BreakBefore(s, i) then "_" else "") + [ToLower(s[i])]
  }

  /** The output after the loop has handled runes `0 .. n-1`. */
  function SnakePrefix(s: string, n: nat): string
    requires n <= |s|
  {
    if n == 0 then [] else SnakePrefix(s, n - 1) + Piece(s, n - 1)
  }

  function ToSnake(s: string): string
  {
    SnakePrefix(s, |s|)
  }

  /** The input lower-cased rune by rune. */
  function Lower(s: string): (r: string)
    ensures |r| == |s|
    ensures forall i :: 0 <= i < |s| ==> r[i] == ToLower(s[i])
  {
    seq(|s|, i requires 0 <= i < |s| => ToLower(s[i]))
  }

  /** Where the lower-cased rune `i` lands in the output. */
  function LetterPos(s: string, i: nat): nat
    requires i < |s|
  {
    i + Breaks(s, i + 1)
  }

  /** Where the underscore in front of rune `i` lands, when there is one. */
  function MarkPos(s: string, i: nat): nat
    requires i < |s|
  {
    i + Breaks(s, i)
  }

  /** Output positions whose underscore was inserted rather than copied. */
  function Inserted(s: string): set<nat>
  {
    set i | 0 <= i < |s| && BreakBefore(s, i) :: MarkPos(s, i)
  }

  /** `r` with the positions in `drop` deleted. */
  function Delete(r: string, drop: set<nat>): string
  {
    if |r| == 0 then []
    else Delete(r[..|r| - 1], drop) + (if |r| - 1 in drop then [] else [r[|r| - 1]])
  }

  /** The loop of easytags.go, appending to `out` rune by rune. */
  method SnakeCase(input: string) returns (out: string)
    ensures out == ToSnake(input)
  {
    out := [];
    var i := 0;
    while i < |input|
      invariant 0 <= i <= |input|
      invariant out == SnakePrefix(input, i)
    {
      if i > 0 && IsUpper(input[i]) && ((i + 1 < |input| && IsLower(input[i + 1])) || IsLower(input[i - 1])) {
        out := out + ['_'];
      }
      out := out + [ToLower(input[i])];
      i := i + 1;
    }
  }

  lemma {:induction false} BreaksBounds(s: string, m: nat, n: nat)
    requires m <= n <= |s|
    ensures Breaks(s, m) <= Breaks(s, n) <= Breaks(s, m) + (n - m)
    decreases n
  {
    if m < n {
      BreaksBounds(s, m, n - 1);
    }
  }

  lemma {:induction false} PrefixShape(s: string, n: nat)
    requires n <= |s|
    ensures |SnakePrefix(s, n)| == n + Breaks(s, n)
    ensures forall i :: 0 <= i < n ==> LetterPos(s, i) < |SnakePrefix(s, n)| && SnakePrefix(s, n)[LetterPos(s, i)] == ToLower(s[i])
    ensures forall i :: 0 <= i < n && BreakBefore(s, i) ==> MarkPos(s, i) < |SnakePrefix(s, n)| && SnakePrefix(s, n)[MarkPos(s, i)] == '_'
  {
    if n > 0 {
      PrefixShape(s, n - 1);
      var p := SnakePrefix(s, n - 1);
      var r := SnakePrefix(s, n);
      assert r == p + Piece(s, n - 1);
      forall i | 0 <= i < n
        ensures LetterPos(s, i) < |r| && r[LetterPos(s, i)] == ToLower(s[i])
        ensures BreakBefore(s, i) ==> MarkPos(s, i) < |r| && r[MarkPos(s, i)] == '_'
      {
        if i < n - 1 {
          BreaksBounds(s, i + 1, n - 1);
          BreaksBounds(s, i, i + 1);
        }
      }
    }
  }

  /** The exact shape of the output: it is the input lower-cased, with an
      underscore inserted in front of rune `i` exactly when `BreakBefore`. */
  lemma SnakeShape(s: string)
    ensures |ToSnake(s)| == |s| + Breaks(s, |s|)
    ensures forall i :: 0 <= i < |s| ==> LetterPos(s, i) < |ToSnake(s)| && ToSnake(s)[LetterPos(s, i)] == ToLower(s[i])
    ensures forall i :: 0 <= i < |s| ==> MarkPos(s, i) < |ToSnake(s)| && ToSnake(s)[MarkPos(s, i)] == (if BreakBefore(s, i) then '_' else ToLower(s[i]))
  {
    PrefixShape(s, |s|);
    forall i | 0 <= i < |s| && !BreakBefore(s, i)
      ensures MarkPos(s, i) == LetterPos(s, i)
    {
    }
  }

  /** No output ever starts with an inserted underscore: the first output
      rune is the first input rune lower-cased. */
  lemma NoLeadingUnderscore(s: string)
    requires |s| > 0
    ensures |ToSnake(s)| > 0 && ToSnake(s)[0] == ToLower(s[0])
    ensures s[0] != '_' ==> ToSnake(s)[0] != '_'
  {
    SnakeShape(s);
    assert LetterPos(s, 0) == 0;
  }

  lemma {:induction false} PrefixAlphabet(s: string, n: nat)
    requires n <= |s|
    ensures forall k :: 0 <= k < |SnakePrefix(s, n)| ==> SnakePrefix(s, n)[k] == '_' || SnakePrefix(s, n)[k] in Lower(s)
  {
    if n > 0 {
      PrefixAlphabet(s, n - 1);
      assert Lower(s)[n - 1] == ToLower(s[n - 1]);
    }
  }

  /** Every output rune is an inserted underscore or a lower-cased input
      rune; in particular the output holds no upper-case letter. */
  lemma SnakeAlphabet(s: string)
    ensures forall k :: 0 <= k < |ToSnake(s)| ==> ToSnake(s)[k] == '_' || ToSnake(s)[k] in Lower(s)
    ensures forall k :: 0 <= k < |ToSnake(s)| ==> !IsUpper(ToSnake(s)[k])
    ensures '"' !in s ==> '"' !in ToSnake(s)
  {
    PrefixAlphabet(s, |s|);
  }

  /** Of the positions the piece for rune `n-1` occupies, only its first
      one can be inserted, and it is exactly when that rune breaks. */
  lemma InsertedInPiece(s: string, n: nat)
    requires 0 < n <= |s|
    ensures MarkPos(s, n - 1) in Inserted(s) <==> BreakBefore(s, n - 1)
    ensures BreakBefore(s, n - 1) ==> MarkPos(s, n - 1) + 1 !in Inserted(s)
  {
    var m := MarkPos(s, n - 1);
    var b := if BreakBefore(s, n - 1) then 1 else 0;
    forall i | 0 <= i < |s| && BreakBefore(s, i)
      ensures i < n - 1 ==> MarkPos(s, i) < m
      ensures i > n - 1 ==> MarkPos(s, i) >= m + 1 + b
    {
      if i < n - 1 {
        BreaksBounds(s, i, n - 1);
      } else if i > n - 1 {
        BreaksBounds(s, n, i);
      }
    }
    if BreakBefore(s, n - 1) {
      assert m in Inserted(s);
    }
  }

  lemma DeleteSnoc(r: string, x: char, drop: set<nat>)
    ensures Delete(r + [x], drop) == Delete(r, drop) + (if |r| in drop then [] else [x])
  {
    assert (r + [x])[..|r + [x]| - 1] == r;
  }

  /** The output for `n` runes is the output for `n-1` runes, the optional
      underscore, and rune `n-1` lower-cased. */
  lemma PrefixSnoc(s: string, n: nat)
    requires 0 < n <= |s|
    ensures SnakePrefix(s, n) == (if BreakBefore(s, n - 1) then SnakePrefix(s, n - 1) + ['_'] else SnakePrefix(s, n - 1)) + [ToLower(s[n - 1])]
  {
  }

  /** Deleting from the output for `n-1` runes plus the optional
      underscore of rune `n-1` gives what deleting from the output for
      `n-1` runes gives, and the next position is not an inserted one. */
  lemma PieceDeletion(s: string, n: nat)
    requires 0 < n <= |s|
    ensures var p := SnakePrefix(s, n - 1);
      var q := if BreakBefore(s, n - 1) then p + ['_'] else p;
      Delete(q, Inserted(s)) == Delete(p, Inserted(s)) && |q| !in Inserted(s)
  {
    var p := SnakePrefix(s, n - 1);
    PrefixShape(s, n - 1);
    InsertedInPiece(s, n);
    assert |p| == MarkPos(s, n - 1);
    if BreakBefore(s, n - 1) {
      DeleteSnoc(p, '_', Inserted(s));
    }
  }

  lemma LowerSnoc(s: string, n: nat)
    requires 0 < n <= |s|
    ensures Lower(s)[..n] == Lower(s)[..n - 1] + [ToLower(s[n - 1])]
  {
  }

  lemma {:induction false} DeletePrefix(s: string, n: nat)
    requires n <= |s|
    ensures Delete(SnakePrefix(s, n), Inserted(s)) == Lower(s)[..n]
  {
    if n > 0 {
      var p := SnakePrefix(s, n - 1);
      var q := if BreakBefore(s, n - 1) then p + ['_'] else p;
      DeletePrefix(s, n - 1);
      PieceDeletion(s, n);
      PrefixSnoc(s, n);
      DeleteSnoc(q, ToLower(s[n - 1]), Inserted(s));
      LowerSnoc(s, n);
    }
  }

  /** Deleting the inserted underscores gives back the input lower-cased. */
  lemma DeleteInserted(s: string)
    ensures Delete(ToSnake(s), Inserted(s)) == Lower(s)
  {
    DeletePrefix(s, |s|);
  }

  lemma {:induction false} CaselessPrefix(s: string, n: nat)
    requires n <= |s|
    requires forall k :: 0 <= k < |s| ==> !IsUpper(s[k])
    ensures SnakePrefix(s, n) == s[..n]
  {
    if n > 0 {
      CaselessPrefix(s, n - 1);
      assert s[..n] == s[..n - 1] + [s[n - 1]];
    }
  }

  /** Converting twice is converting once. */
  lemma SnakeIdempotent(s: string)
    ensures ToSnake(ToSnake(s)) == ToSnake(s)
  {
    SnakeAlphabet(s);
    var r := ToSnake(s);
    CaselessPrefix(r, |r|);
    assert r[..|r|] == r;
  }

  /** The acronym rule on the identifiers the tool is used on. */
  lemma SnakeExampleTestField2()
    ensures ToSnake("TestField2") == "test_field2"
  {
    assert SnakePrefix("TestField2", 1) == "t";
    assert SnakePrefix("TestField2", 2) == "te";
    assert SnakePrefix("TestField2", 3) == "tes";
    assert SnakePrefix("TestField2", 4) == "test";
    assert SnakePrefix("TestField2", 5) == "test_f";
    assert SnakePrefix("TestField2", 6) == "test_fi";
    assert SnakePrefix("TestField2", 7) == "test_fie";
    assert SnakePrefix("TestField2", 8) == "test_fiel";
    assert SnakePrefix("TestField2", 9) == "test_field";
    assert SnakePrefix("TestField2", 10) == "test_field2";
  }

  lemma SnakeExampleUserID()
    ensures ToSnake("UserID") == "user_id"
  {
    assert SnakePrefix("UserID", 1) == "u";
    assert SnakePrefix("UserID", 2) == "us";
    assert SnakePrefix("UserID", 3) == "use";
    assert SnakePrefix("UserID", 4) == "user";
    assert SnakePrefix("UserID", 5) == "user_i";
    assert SnakePrefix("UserID", 6) == "user_id";
  }

  lemma SnakeExampleCSRFToken()
    ensures ToSnake("CSRFToken") == "csrf_token"
  {
    assert SnakePrefix("CSRFToken", 1) == "c";
    assert SnakePrefix("CSRFToken", 2) == "cs";
    assert SnakePrefix("CSRFToken", 3) == "csr";
    assert SnakePrefix("CSRFToken", 4) == "csrf";
    assert SnakePrefix("CSRFToken", 5) == "csrf_t";
    assert SnakePrefix("CSRFToken", 6) == "csrf_to";
    assert SnakePrefix("CSRFToken", 7) == "csrf_tok";
    assert SnakePrefix("CSRFToken", 8) == "csrf_toke";
    assert SnakePrefix("CSRFToken", 9) == "csrf_token";
  }

  lemma SnakeExampleID()
    ensures ToSnake("ID") == "id"
  {
    assert SnakePrefix("ID", 1) == "i";
    assert SnakePrefix("ID", 2) == "id";
  }

}
