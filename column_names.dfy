/**
 * The column-name clean-up applied to the spreadsheet header before anything
 * else reads it: strip surrounding whitespace, turn every space into `_`,
 * turn the currency token `(£)` into `GBP`, then delete every remaining
 * parenthesis. Later stages look columns up by the names it produces.
 */
module ColumnNames {

  /** The characters Python's `str.isspace` accepts, which `str.strip()` removes. */
  predicate IsWhitespace(c: char) {
    || ('\t' <= c <= '\r')                 // tab, line feed, vertical tab, form feed, carriage return
    || ('\U{001C}' <= c <= ' ')            // file, group, record and unit separators; space
    || c == '\U{0085}' || c == '\U{00A0}' || c == '\U{1680}'
    || ('\U{2000}' <= c <= '\U{200A}')
    || c == '\U{2028}' || c == '\U{2029}' || c == '\U{202F}' || c == '\U{205F}' || c == '\U{3000}'
  }

  predicate AllWhitespace(s: string) {
    forall i :: 0 <= i < |s| ==> IsWhitespace(s[i])
  }

  /** The number of whitespace characters `s` starts with. */
  function LeadingWhitespace(s: string): (n: nat)
    ensures n <= |s|
  {
    if s != [] && IsWhitespace(s[0]) then 1 + LeadingWhitespace(s[1..]) else 0
  }

  /** The number of whitespace characters `s` ends with. */
  function TrailingWhitespace(s: string): (n: nat)
    ensures n <= |s|
  {
    if s != [] && IsWhitespace(s[|s| - 1]) then 1 + TrailingWhitespace(s[..|s| - 1]) else 0
  }

  /** `LeadingWhitespace` counts whitespace up to the first other character. */
  lemma {:induction false} LeadingWhitespaceSpec(s: string)
    ensures forall k :: 0 <= k < LeadingWhitespace(s) ==> IsWhitespace(s[k])
    ensures LeadingWhitespace(s) < |s| ==> !IsWhitespace(s[LeadingWhitespace(s)])
  {
    if s != [] && IsWhitespace(s[0]) {
      LeadingWhitespaceSpec(s[1..]);
      assert forall k :: 1 <= k < LeadingWhitespace(s) ==> s[k] == s[1..][k - 1];
    }
  }

  /** `TrailingWhitespace` counts whitespace back to the last other character. */
  lemma {:induction false} TrailingWhitespaceSpec(s: string)
    ensures forall k :: |s| - TrailingWhitespace(s) <= k < |s| ==> IsWhitespace(s[k])
    ensures TrailingWhitespace(s) < |s| ==> !IsWhitespace(s[|s| - 1 - TrailingWhitespace(s)])
  {
    if s != [] && IsWhitespace(s[|s| - 1]) {
      var p := s[..|s| - 1];
      TrailingWhitespaceSpec(p);
      assert forall k :: 0 <= k < |p| ==> s[k] == p[k];
    }
  }

  /** Python's `str.strip()`: `s` without its leading whitespace, then without its trailing whitespace. */
  function Strip(s: string): (r: string)
    ensures |r| <= |s|
  {
    var t := s[LeadingWhitespace(s)..];
    t[..|t| - TrailingWhitespace(t)]
  }

  /** Every occurrence of the character `from` replaced by `to` (`str.replace` with one-character arguments). */
  function ReplaceChar(s: string, from: char, to: char): (r: string)
    ensures |r| == |s|
    ensures forall i :: 0 <= i < |s| ==> r[i] == if s[i] == from then to else s[i]
  {
    if s == [] then []
    else [if s[0] == from then to else s[0]] + ReplaceChar(s[1..], from, to)
  }

  /**
   * Python's `str.replace(pat, rep)`: scanning left to right, every
   * occurrence of `pat` that does not overlap an earlier replaced one becomes `rep`.
   */
  function ReplaceAll(s: string, pat: string, rep: string): string
    requires pat != []
    decreases |s|
  {
    if |s| < |pat| then s
    else if s[..|pat|] == pat then rep + ReplaceAll(s[|pat|..], pat, rep)
    else [s[0]] + ReplaceAll(s[1..], pat, rep)
  }

  /** `s` with every character of `cs` removed (a regular-expression substitution by the empty string). */
  function DeleteChars(s: string, cs: set<char>): string
  {
    if s == [] then []
    else (if s[0] in cs then [] else [s[0]]) + DeleteChars(s[1..], cs)
  }

  /** The currency token and what it becomes. */
  const PoundToken: string := "(\U{00A3})"
  const PoundName: string := "GBP"

  /** The normalisation applied to every column name of the header, step by step. */
  function Normalise(name: string): string
  {
    var stripped := Strip(name);
    var underscored := ReplaceChar(stripped, ' ', '_');
    var currency := ReplaceAll(underscored, PoundToken, PoundName);
    DeleteChars(currency, {'(', ')'})
  }

  /** The whole header, column by column. */
  function NormaliseHeader(header: seq<string>): seq<string>
  {
    seq(|header|, i requires 0 <= i < |header| => Normalise(header[i]))
  }
}

/** What the normalisation guarantees beyond a single call. */
module ColumnNameFacts {
  import opened ColumnNames

  /**
   * `Strip` is pinned down: a cut of `x` with only whitespace outside it and
   * non-whitespace characters at both of its ends is `Strip(x)`.
   */
  lemma StripCharacterised(x: string, i: int, j: int)
    requires 0 <= i <= j <= |x|
    requires forall k :: 0 <= k < |x| && (k < i || j <= k) ==> IsWhitespace(x[k])
    requires i == j || (!IsWhitespace(x[i]) && !IsWhitespace(x[j - 1]))
    ensures Strip(x) == x[i..j]
  {
    var lead := LeadingWhitespace(x);
    LeadingWhitespaceSpec(x);
    if i < j {
      assert lead == i;
      SuffixTrailingWhitespace(x, i);
      var t := x[i..];
      assert |x| - TrailingWhitespace(t) == j;
      assert t[..j - i] == x[i..j];
    } else {
      assert lead == |x|;
    }
  }

  /**
   * The converse: `Strip(s)` is such a cut of `s`, with only whitespace outside
   * it and, unless it is empty, non-whitespace characters at both of its ends.
   */
  lemma StripIsCut(s: string) returns (a: nat, b: nat)
    ensures a <= b <= |s| && Strip(s) == s[a..b]
    ensures forall k :: 0 <= k < |s| && (k < a || b <= k) ==> IsWhitespace(s[k])
    ensures a == b || (!IsWhitespace(s[a]) && !IsWhitespace(s[b - 1]))
  {
    a := LeadingWhitespace(s);
    LeadingWhitespaceSpec(s);
    b := |s| - TrailingWhitespace(s[a..]);
    SuffixTrailingWhitespace(s, a);
    assert Strip(s) == s[a..b] by {
      var t := s[a..];
      assert t[..|t| - TrailingWhitespace(t)] == s[a..b];
    }
  }

  /** The trailing whitespace of a suffix `s[a..]`, located in `s` itself. */
  lemma SuffixTrailingWhitespace(s: string, a: nat)
    requires a <= |s|
    ensures var b := |s| - TrailingWhitespace(s[a..]);
            && a <= b
            && (forall k :: b <= k < |s| ==> IsWhitespace(s[k]))
            && (a < b ==> !IsWhitespace(s[b - 1]))
  {
    var t := s[a..];
    TrailingWhitespaceSpec(t);
    var b := |s| - TrailingWhitespace(t);
    forall k | b <= k < |s| ensures IsWhitespace(s[k]) {
      assert s[k] == t[k - a];
    }
    if a < b {
      assert s[b - 1] == t[b - 1 - a];
    }
  }

  /** Whitespace added around `s` extends the whitespace outside any cut `s[a..b]` of it. */
  lemma WhitespaceOutside(w1: string, s: string, w2: string, a: int, b: int)
    requires AllWhitespace(w1) && AllWhitespace(w2) && 0 <= a <= b <= |s|
    requires forall k :: 0 <= k < |s| && (k < a || b <= k) ==> IsWhitespace(s[k])
    ensures var x := w1 + s + w2;
            forall k :: 0 <= k < |x| && (k < |w1| + a || |w1| + b <= k) ==> IsWhitespace(x[k])
  {
    var x := w1 + s + w2;
    forall k | 0 <= k < |x| && (k < |w1| + a || |w1| + b <= k) ensures IsWhitespace(x[k]) {
      if k < |w1| { assert x[k] == w1[k]; }
      else if k < |w1| + |s| { assert x[k] == s[k - |w1|]; }
      else { assert x[k] == w2[k - |w1| - |s|]; }
    }
  }

  /** A cut of the middle part of `w1 + s + w2` is the same cut of `s`. */
  lemma MiddleCut(w1: string, s: string, w2: string, a: int, b: int)
    requires 0 <= a <= b <= |s|
    ensures (w1 + s + w2)[|w1| + a..|w1| + b] == s[a..b]
    ensures a < b ==> (w1 + s + w2)[|w1| + a] == s[a] && (w1 + s + w2)[|w1| + b - 1] == s[b - 1]
  {
    var x := w1 + s + w2;
    forall k | 0 <= k < b - a ensures x[|w1| + a..|w1| + b][k] == s[a..b][k] {
      assert x[|w1| + a + k] == s[a + k];
    }
  }

  /** Whitespace around a name is removed whatever else the name holds. */
  lemma StripIgnoresSurroundingWhitespace(w1: string, s: string, w2: string)
    requires AllWhitespace(w1) && AllWhitespace(w2)
    ensures Strip(w1 + s + w2) == Strip(s)
  {
    var a, b := StripIsCut(s);
    WhitespaceOutside(w1, s, w2, a, b);
    MiddleCut(w1, s, w2, a, b);
    StripCharacterised(w1 + s + w2, |w1| + a, |w1| + b);
  }

  /** Every character `ReplaceAll` produces comes from the input or from the replacement. */
  lemma {:induction false} ReplaceAllChars(s: string, pat: string, rep: string, c: char)
    requires pat != [] && c in ReplaceAll(s, pat, rep)
    ensures c in s || c in rep
    decreases |s|
  {
    if |s| < |pat| {
    } else if s[..|pat|] == pat {
      if c !in rep {
        ReplaceAllChars(s[|pat|..], pat, rep, c);
        assert c in s[|pat|..] ==> c in s;
      }
    } else if c != s[0] {
      assert ReplaceAll(s, pat, rep) == [s[0]] + ReplaceAll(s[1..], pat, rep);
      ReplaceAllChars(s[1..], pat, rep, c);
      assert c in s[1..] ==> c in s;
    }
  }

  /** `DeleteChars` keeps exactly the characters outside `cs`. */
  lemma {:induction false} DeleteCharsMembers(s: string, cs: set<char>, c: char)
    ensures c in DeleteChars(s, cs) <==> c in s && c !in cs
  {
    if s != [] {
      DeleteCharsMembers(s[1..], cs, c);
      assert c in s <==> c == s[0] || c in s[1..];
    }
  }

  /** A normalised name contains no space and no parenthesis. */
  lemma NormaliseCharset(name: string)
    ensures var r := Normalise(name); ' ' !in r && '(' !in r && ')' !in r
  {
    var u := ReplaceChar(Strip(name), ' ', '_');
    var v := ReplaceAll(u, PoundToken, PoundName);
    assert ' ' !in u by {
      forall i | 0 <= i < |u| ensures u[i] != ' ' {}
    }
    if ' ' in v {
      ReplaceAllChars(u, PoundToken, PoundName, ' ');
    }
    DeleteCharsMembers(v, {'(', ')'}, ' ');
    DeleteCharsMembers(v, {'(', ')'}, '(');
    DeleteCharsMembers(v, {'(', ')'}, ')');
  }

  /** Normalised names do not depend on the whitespace around the original name. */
  lemma NormaliseIgnoresSurroundingWhitespace(w1: string, name: string, w2: string)
    requires AllWhitespace(w1) && AllWhitespace(w2)
    ensures Normalise(w1 + name + w2) == Normalise(name)
  {
    StripIgnoresSurroundingWhitespace(w1, name, w2);
  }

  lemma ReplaceCharAbsent(s: string, from: char, to: char)
    requires from !in s
    ensures ReplaceChar(s, from, to) == s
  {
    assert forall i :: 0 <= i < |s| ==> s[i] != from;
  }

  /** Where some character of `pat` never occurs in `s`, `pat` cannot occur either and nothing is replaced. */
  lemma {:induction false} ReplaceAllAbsent(s: string, pat: string, rep: string, k: nat)
    requires k < |pat| && pat[k] !in s
    ensures ReplaceAll(s, pat, rep) == s
    decreases |s|
  {
    if |s| >= |pat| {
      assert s[..|pat|][k] == s[k] != pat[k];
      ReplaceAllAbsent(s[1..], pat, rep, k);
      assert s == [s[0]] + s[1..];
    }
  }

  /** Before an occurrence of the pattern, a character that cannot start it is copied as it is. */
  lemma ReplaceAllSkips(a: string, pat: string, rep: string, b: string)
    requires pat != [] && a != [] && a[0] != pat[0]
    ensures ReplaceAll(a + pat + b, pat, rep) == [a[0]] + ReplaceAll(a[1..] + pat + b, pat, rep)
  {
    var s := a + pat + b;
    assert s[..|pat|] != pat by { assert s[..|pat|][0] == a[0]; }
    assert s[1..] == a[1..] + pat + b;
  }

  /** Putting the first character of `a` back in front of the rest of `a` and what follows gives `a` and what follows. */
  lemma FirstCharBack(a: string, m1: string, m2: string)
    requires a != []
    ensures [a[0]] + (a[1..] + m1 + m2) == a + m1 + m2
  {
    assert [a[0]] + a[1..] == a;
  }

  /** An occurrence of the pattern at the front is replaced. */
  lemma ReplaceAllFront(pat: string, rep: string, b: string)
    requires pat != []
    ensures ReplaceAll([] + pat + b, pat, rep) == [] + rep + ReplaceAll(b, pat, rep)
  {
    var s := [] + pat + b;
    assert s[..|pat|] == pat && s[|pat|..] == b;
    assert [] + rep == rep;
  }

  /** An occurrence of `pat` preceded by text that cannot start one is replaced. */
  lemma {:induction false} ReplaceAllAt(a: string, pat: string, rep: string, b: string)
    requires pat != [] && pat[0] !in a
    ensures ReplaceAll(a + pat + b, pat, rep) == a + rep + ReplaceAll(b, pat, rep)
    decreases |a|
  {
    if a == [] {
      ReplaceAllFront(pat, rep, b);
    } else {
      ReplaceAllSkips(a, pat, rep, b);
      ReplaceAllAt(a[1..], pat, rep, b);
      FirstCharBack(a, rep, ReplaceAll(b, pat, rep));
    }
  }

  lemma {:induction false} DeleteCharsAppend(a: string, b: string, cs: set<char>)
    ensures DeleteChars(a + b, cs) == DeleteChars(a, cs) + DeleteChars(b, cs)
  {
    if a != [] {
      assert (a + b)[1..] == a[1..] + b;
      DeleteCharsAppend(a[1..], b, cs);
    } else {
      assert a + b == b;
    }
  }

  lemma {:induction false} DeleteCharsAbsent(s: string, cs: set<char>)
    requires forall c :: c in cs ==> c !in s
    ensures DeleteChars(s, cs) == s
  {
    if s != [] {
      DeleteCharsAbsent(s[1..], cs);
      assert s == [s[0]] + s[1..];
    }
  }

  /** A normalised name with no whitespace at either end is a fixed point of the normalisation. */
  lemma NormaliseIdempotent(name: string)
    requires var n := Normalise(name); n == [] || (!IsWhitespace(n[0]) && !IsWhitespace(n[|n| - 1]))
    ensures Normalise(Normalise(name)) == Normalise(name)
  {
    var n := Normalise(name);
    NormaliseCharset(name);
    StripCharacterised(n, 0, |n|);
    assert n[0..|n|] == n;
    ReplaceCharAbsent(n, ' ', '_');
    ReplaceAllAbsent(n, PoundToken, PoundName, 0);
    DeleteCharsAbsent(n, {'(', ')'});
  }

  /** A name with non-blank ends is left alone by the strip step. */
  lemma StripKeeps(s: string)
    requires s != [] && !IsWhitespace(s[0]) && !IsWhitespace(s[|s| - 1])
    ensures Strip(s) == s
  {
    StripCharacterised(s, 0, |s|);
    assert s[0..|s|] == s;
  }

  /** Without parentheses and surrounding whitespace, a name only has its spaces turned into `_`. */
  lemma NormaliseWithoutParentheses(s: string)
    requires s != [] && !IsWhitespace(s[0]) && !IsWhitespace(s[|s| - 1])
    requires '(' !in s && ')' !in s
    ensures Normalise(s) == ReplaceChar(s, ' ', '_')
  {
    var u := ReplaceChar(s, ' ', '_');
    assert ReplaceChar(Strip(s), ' ', '_') == u by { StripKeeps(s); }
    assert ReplaceAll(u, PoundToken, PoundName) == u by {
      NoParenthesesAfterReplaceChar(s);
      ReplaceAllAbsent(u, PoundToken, PoundName, 0);
    }
    assert DeleteChars(u, {'(', ')'}) == u by {
      NoParenthesesAfterReplaceChar(s);
      DeleteCharsAbsent(u, {'(', ')'});
    }
  }

  lemma NoParenthesesAfterReplaceChar(s: string)
    requires '(' !in s && ')' !in s
    ensures var u := ReplaceChar(s, ' ', '_'); '(' !in u && ')' !in u && PoundToken[0] !in u
  {
    var u := ReplaceChar(s, ' ', '_');
    forall k | 0 <= k < |u| ensures u[k] != '(' && u[k] != ')' {
      assert s[k] in s;
    }
  }

  /** Replacing a character works piece by piece on a concatenation. */
  lemma {:induction false} ReplaceCharAppend(x: string, y: string, from: char, to: char)
    ensures ReplaceChar(x + y, from, to) == ReplaceChar(x, from, to) + ReplaceChar(y, from, to)
    decreases |x|
  {
    if x == [] {
      assert x + y == y;
    } else {
      assert (x + y)[0] == x[0] && (x + y)[1..] == x[1..] + y;
      ReplaceCharAppend(x[1..], y, from, to);
    }
  }

  /** The space joining two space-free words becomes `_`. */
  lemma SpaceJoined(a: string, b: string)
    requires ' ' !in a && ' ' !in b
    ensures ReplaceChar(a + " " + b, ' ', '_') == a + "_" + b
  {
    ReplaceCharAppend(a + " ", b, ' ', '_');
    ReplaceCharAppend(a, " ", ' ', '_');
    ReplaceCharAbsent(a, ' ', '_');
    ReplaceCharAbsent(b, ' ', '_');
    assert ReplaceChar(" ", ' ', '_') == "_";
  }

  lemma UnitsSoldParts()
    ensures "Units" + " " + "Sold" == "Units Sold" && "Units" + "_" + "Sold" == "Units_Sold"
    ensures ' ' !in "Units" && ' ' !in "Sold"
  {
  }

  lemma UnitsSoldSpace()
    ensures ReplaceChar("Units Sold", ' ', '_') == "Units_Sold"
  {
    UnitsSoldParts();
    SpaceJoined("Units", "Sold");
  }

  /** "Units Sold" becomes "Units_Sold". */
  lemma UnitsSoldName()
    ensures Normalise("Units Sold") == "Units_Sold"
  {
    NormaliseWithoutParentheses("Units Sold");
    UnitsSoldSpace();
  }

  /** A name without spaces, parentheses or surrounding whitespace is already normal. */
  lemma NormalNameFixed(s: string)
    requires s != [] && !IsWhitespace(s[0]) && !IsWhitespace(s[|s| - 1])
    requires ' ' !in s && '(' !in s && ')' !in s
    ensures Normalise(s) == s
  {
    NormaliseWithoutParentheses(s);
    ReplaceCharAbsent(s, ' ', '_');
  }

  lemma UnitsSoldChars()
    ensures var s := "Units_Sold";
            s != [] && !IsWhitespace(s[0]) && !IsWhitespace(s[|s| - 1]) && ' ' !in s && '(' !in s && ')' !in s
  {
  }

  lemma UnitsSoldNormal()
    ensures Normalise("Units_Sold") == "Units_Sold"
  {
    UnitsSoldChars();
    NormalNameFixed("Units_Sold");
  }

  /** "Units_Sold" is already normal, so two different header names can collide. */
  lemma NormaliseNotInjective()
    ensures Normalise("Units_Sold") == Normalise("Units Sold")
  {
    UnitsSoldNormal();
    UnitsSoldName();
  }

  /** What a name needs for `CurrencyName` to apply to it. */
  predicate CurrencyStem(stem: string) {
    stem != [] && !IsWhitespace(stem[0]) && ' ' !in stem && '(' !in stem && ')' !in stem
  }

  /** The characters of the currency token and of its replacement. */
  lemma PoundFacts()
    ensures |PoundToken| == 3 && PoundToken[0] == '(' && PoundToken[2] == ')'
    ensures ' ' !in PoundToken && !IsWhitespace(PoundToken[2])
    ensures '(' !in PoundName && ')' !in PoundName
  {
  }

  lemma CurrencyStripped(stem: string)
    requires CurrencyStem(stem)
    ensures ReplaceChar(Strip(stem + PoundToken), ' ', '_') == stem + PoundToken
  {
    var s := stem + PoundToken;
    PoundFacts();
    assert s[0] == stem[0] && s[|s| - 1] == PoundToken[2];
    StripKeeps(s);
    assert ' ' !in s by {
      forall k | 0 <= k < |s| ensures s[k] != ' ' {
        if k < |stem| { assert s[k] == stem[k]; } else { assert s[k] == PoundToken[k - |stem|]; }
      }
    }
    ReplaceCharAbsent(s, ' ', '_');
  }

  lemma CurrencyReplaced(stem: string)
    requires CurrencyStem(stem)
    ensures ReplaceAll(stem + PoundToken, PoundToken, PoundName) == stem + PoundName
  {
    PoundFacts();
    ReplaceAllAt(stem, PoundToken, PoundName, []);
    assert stem + PoundToken + [] == stem + PoundToken;
    assert stem + PoundName + [] == stem + PoundName;
    assert ReplaceAll([], PoundToken, PoundName) == [];
  }

  lemma CurrencyDeleted(stem: string)
    requires CurrencyStem(stem)
    ensures DeleteChars(stem + PoundName, {'(', ')'}) == stem + PoundName
  {
    PoundFacts();
    var s := stem + PoundName;
    assert '(' !in s && ')' !in s by {
      forall k | 0 <= k < |s| ensures s[k] != '(' && s[k] != ')' {
        if k < |stem| { assert s[k] == stem[k]; } else { assert s[k] == PoundName[k - |stem|]; }
      }
    }
    DeleteCharsAbsent(s, {'(', ')'});
  }

  /** A name ending in the currency token gets `GBP` in its place. */
  lemma CurrencyName(stem: string)
    requires CurrencyStem(stem)
    ensures Normalise(stem + PoundToken) == stem + PoundName
  {
    CurrencyStripped(stem);
    CurrencyReplaced(stem);
    CurrencyDeleted(stem);
  }

  lemma RevenueStem()
    ensures CurrencyStem("Revenue")
    ensures "Revenue" + PoundToken == "Revenue(\U{00A3})"
    ensures "Revenue" + PoundName == "RevenueGBP"
  {
  }

  lemma RevenueName()
    ensures Normalise("Revenue(\U{00A3})") == "RevenueGBP"
  {
    RevenueStem();
    CurrencyName("Revenue");
  }

  lemma ProfitStem()
    ensures CurrencyStem("Profit")
    ensures "Profit" + PoundToken == "Profit(\U{00A3})"
    ensures "Profit" + PoundName == "ProfitGBP"
  {
  }

  lemma ProfitName()
    ensures Normalise("Profit(\U{00A3})") == "ProfitGBP"
  {
    ProfitStem();
    CurrencyName("Profit");
  }

  /** A lone parenthesis is deleted entirely. */
  lemma ParenthesisDeleted(p: string)
    requires p == "(" || p == ")"
    ensures DeleteChars(p, {'(', ')'}) == []
  {
    assert p[1..] == [];
  }

  /** Deleting the parentheses from `a(b)` leaves `ab` when `a` and `b` hold none. */
  lemma DeleteBrackets(a: string, b: string)
    requires '(' !in a && ')' !in a && '(' !in b && ')' !in b
    ensures DeleteChars(a + "(" + b + ")", {'(', ')'}) == a + b
  {
    var cs := {'(', ')'};
    var x1 := a + "(";
    var x2 := x1 + b;
    assert DeleteChars(x1, cs) == a by {
      DeleteCharsAppend(a, "(", cs);
      DeleteCharsAbsent(a, cs);
      ParenthesisDeleted("(");
      assert a + [] == a;
    }
    assert DeleteChars(x2, cs) == a + b by {
      DeleteCharsAppend(x1, b, cs);
      DeleteCharsAbsent(b, cs);
    }
    assert DeleteChars(x2 + ")", cs) == a + b by {
      DeleteCharsAppend(x2, ")", cs);
      ParenthesisDeleted(")");
      assert a + b + [] == a + b;
    }
  }

  /**
   * A name made of a word and a parenthesised qualifier, neither holding a
   * space, a parenthesis or the pound sign, loses only the parentheses.
   */
  lemma QualifiedName(a: string, b: string)
    requires CurrencyStem(a) && PoundToken[1] !in a
    requires ' ' !in b && '(' !in b && ')' !in b && PoundToken[1] !in b
    ensures Normalise(a + "(" + b + ")") == a + b
  {
    var s := a + "(" + b + ")";
    assert s[0] == a[0] && s[|s| - 1] == ')';
    StripKeeps(s);
    assert ' ' !in s && PoundToken[1] !in s;
    ReplaceCharAbsent(s, ' ', '_');
    ReplaceAllAbsent(s, PoundToken, PoundName, 1);
    DeleteBrackets(a, b);
  }

  lemma CountryParts()
    ensures "Country" + "(" + "UK" + ")" == "Country(UK)"
    ensures "Country" + "UK" == "CountryUK"
    ensures CurrencyStem("Country") && PoundToken[1] !in "Country"
    ensures ' ' !in "UK" && '(' !in "UK" && ')' !in "UK" && PoundToken[1] !in "UK"
  {
  }

  /** "Country(UK)" becomes "CountryUK". */
  lemma CountryName()
    ensures Normalise("Country(UK)") == "CountryUK"
  {
    CountryParts();
    QualifiedName("Country", "UK");
  }

  /** The header names of the sales sheet become the names the later stages read. */
  lemma SalesHeaderNames()
    ensures Normalise("Revenue(\U{00A3})") == "RevenueGBP"
    ensures Normalise("Profit(\U{00A3})") == "ProfitGBP"
    ensures Normalise("Country(UK)") == "CountryUK"
    ensures Normalise("Units Sold") == "Units_Sold"
  {
    RevenueName();
    ProfitName();
    CountryName();
    UnitsSoldName();
  }

  /** No column name of a normalised header contains a space or a parenthesis. */
  lemma NormaliseHeaderCharset(header: seq<string>)
    ensures var n := NormaliseHeader(header);
            |n| == |header| &&
            forall i :: 0 <= i < |n| ==> ' ' !in n[i] && '(' !in n[i] && ')' !in n[i]
  {
    forall i | 0 <= i < |header|
      ensures var r := Normalise(header[i]); ' ' !in r && '(' !in r && ')' !in r
    {
      NormaliseCharset(header[i]);
    }
  }

  /** One more column adds its normalised name at the end of the header. */
  lemma HeaderAppend(header: seq<string>, name: string)
    ensures NormaliseHeader(header + [name]) == NormaliseHeader(header) + [Normalise(name)]
  {
  }

  /** A six-column header normalises column by column. */
  lemma SixColumns(h0: string, h1: string, h2: string, h3: string, h4: string, h5: string,
                   n0: string, n1: string, n2: string, n3: string, n4: string, n5: string)
    requires Normalise(h0) == n0 && Normalise(h1) == n1 && Normalise(h2) == n2
    requires Normalise(h3) == n3 && Normalise(h4) == n4 && Normalise(h5) == n5
    ensures NormaliseHeader([h0, h1, h2, h3, h4, h5]) == [n0, n1, n2, n3, n4, n5]
  {
    assert NormaliseHeader([]) == [];
    HeaderAppend([], h0);
    HeaderAppend([h0], h1);
    HeaderAppend([h0, h1], h2);
    HeaderAppend([h0, h1, h2], h3);
    HeaderAppend([h0, h1, h2, h3], h4);
    HeaderAppend([h0, h1, h2, h3, h4], h5);
  }

  lemma DateChars()
    ensures var s := "Date";
            s != [] && !IsWhitespace(s[0]) && !IsWhitespace(s[|s| - 1]) && ' ' !in s && '(' !in s && ')' !in s
  {
  }

  lemma ConfectionaryChars()
    ensures var s := "Confectionary";
            s != [] && !IsWhitespace(s[0]) && !IsWhitespace(s[|s| - 1]) && ' ' !in s && '(' !in s && ')' !in s
  {
  }

  /** `Date` and `Confectionary` are already normal and keep their names. */
  lemma PlainHeaderNames()
    ensures Normalise("Date") == "Date"
    ensures Normalise("Confectionary") == "Confectionary"
  {
    DateChars();
    NormalNameFixed("Date");
    ConfectionaryChars();
    NormalNameFixed("Confectionary");
  }

  /** The header of the sales sheet becomes, column by column, the six names the later stages read. */
  lemma SalesHeader()
    ensures NormaliseHeader(["Date", "Confectionary", "Country(UK)", "Units Sold", "Revenue(\U{00A3})", "Profit(\U{00A3})"])
         == ["Date", "Confectionary", "CountryUK", "Units_Sold", "RevenueGBP", "ProfitGBP"]
  {
    PlainHeaderNames();
    SalesHeaderNames();
    SixColumns("Date", "Confectionary", "Country(UK)", "Units Sold", "Revenue(\U{00A3})", "Profit(\U{00A3})",
               "Date", "Confectionary", "CountryUK", "Units_Sold", "RevenueGBP", "ProfitGBP");
  }

  /** A space between a name and the currency token ends up as `_` before `GBP`. */
  lemma SpacedCurrency(stem: string)
    requires CurrencyStem(stem)
    ensures Normalise(stem + " " + PoundToken) == stem + "_" + PoundName
  {
    var s := stem + " " + PoundToken;
    var u := stem + "_" + PoundToken;
    PoundFacts();
    assert ReplaceChar(Strip(s), ' ', '_') == u by {
      assert s[0] == stem[0] && s[|s| - 1] == PoundToken[2];
      StripKeeps(s);
      forall k | 0 <= k < |s| ensures ReplaceChar(s, ' ', '_')[k] == u[k] {
        if k < |stem| {
          assert s[k] == stem[k] && u[k] == stem[k];
        } else if k > |stem| {
          assert s[k] == PoundToken[k - |stem| - 1] && u[k] == PoundToken[k - |stem| - 1];
        }
      }
    }
    assert CurrencyStem(stem + "_") by {
      assert (stem + "_")[0] == stem[0];
    }
    CurrencyReplaced(stem + "_");
    CurrencyDeleted(stem + "_");
  }

  lemma SpacedRevenueParts()
    ensures CurrencyStem("Revenue")
    ensures "Revenue" + " " + PoundToken == "Revenue (\U{00A3})"
    ensures "Revenue" + "_" + PoundName == "Revenue_GBP"
  {
  }

  /** A header cell written with a space before the token, "Revenue (£)", becomes "Revenue_GBP". */
  lemma SpacedCurrencyName()
    ensures Normalise("Revenue (\U{00A3})") == "Revenue_GBP"
  {
    SpacedRevenueParts();
    SpacedCurrency("Revenue");
  }
}
