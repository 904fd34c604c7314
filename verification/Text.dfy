/** The parts of Go's strings and strconv packages the agent relies on, over sequences of
    characters. */
module Text {

  predicate IsSpace(c: char) {
    c == ' ' || c == '\t' || c == '\n' || c == '\r' || c == '\U{0B}' || c == '\U{0C}'
  }

  // ------------------------------------------------------------- trimming

  /** What a trim cuts: newlines only, or all white space. */
  datatype Cut = Newlines | Spaces {
    predicate Has(c: char) {
      match this
      case Newlines => c == '\n'
      case Spaces => IsSpace(c)
    }

    ghost predicate HasAll(s: string) {
      forall i | 0 <= i < |s| :: Has(s[i])
    }
  }

  function TrimLeft(s: string, cut: Cut): (r: string)
    ensures |r| <= |s|
  {
    if s != "" && cut.Has(s[0]) then TrimLeft(s[1..], cut) else s
  }

  function TrimRight(s: string, cut: Cut): (r: string)
    ensures |r| <= |s|
  {
    if s != "" && cut.Has(s[|s| - 1]) then TrimRight(s[..|s| - 1], cut) else s
  }

  /** What trimming the left end removes is all to be cut, and what it keeps starts with
      something that is not. */
  lemma {:induction false} TrimLeftCuts(s: string, cut: Cut)
    ensures var r := TrimLeft(s, cut);
            && s[|s| - |r|..] == r && cut.HasAll(s[..|s| - |r|])
            && (r != "" ==> !cut.Has(r[0]))
  {
    if s != "" && cut.Has(s[0]) {
      TrimLeftCuts(s[1..], cut);
      var r := TrimLeft(s, cut);
      assert forall i | 1 <= i < |s| - |r| :: s[i] == s[1..][i - 1] == s[1..][..|s| - 1 - |r|][i - 1];
      assert s[1..][|s| - 1 - |r|..] == s[|s| - |r|..];
    }
  }

  lemma {:induction false} TrimRightCuts(s: string, cut: Cut)
    ensures var r := TrimRight(s, cut);
            && s[..|r|] == r && cut.HasAll(s[|r|..])
            && (r != "" ==> !cut.Has(r[|r| - 1]))
  {
    if s != "" && cut.Has(s[|s| - 1]) {
      var n := |s| - 1;
      TrimRightCuts(s[..n], cut);
      var r := TrimRight(s, cut);
      assert s[..n][..|r|] == s[..|r|];
      assert forall i | 0 <= i < n - |r| :: s[|r|..][i] == s[..n][|r|..][i];
    }
  }

  function Trim(s: string): (r: string)
  {
    TrimLeft(TrimRight(s, Spaces), Spaces)
  }

  /** Text that trimming leaves alone. */
  predicate Trimmed(s: string) {
    s == "" || (!IsSpace(s[0]) && !IsSpace(s[|s| - 1]))
  }

  lemma {:induction false} TrimRightIs(s: string, n: nat, cut: Cut)
    requires n <= |s| && cut.HasAll(s[n..]) && (n > 0 ==> !cut.Has(s[n - 1]))
    ensures TrimRight(s, cut) == s[..n]
  {
    var last := |s| - 1;
    if n < |s| {
      assert s[last] == s[n..][last - n];
      assert s[..last][n..] == s[n..][..last - n] && s[..last][..n] == s[..n];
      TrimRightIs(s[..last], n, cut);
    }
  }

  lemma {:induction false} TrimLeftIs(s: string, n: nat, cut: Cut)
    requires n <= |s| && cut.HasAll(s[..n]) && (n < |s| ==> !cut.Has(s[n]))
    ensures TrimLeft(s, cut) == s[n..]
  {
    if n > 0 {
      assert s[0] == s[..n][0];
      assert s[1..][..n - 1] == s[..n][1..] && s[1..][n - 1..] == s[n..];
      TrimLeftIs(s[1..], n - 1, cut);
    }
  }

  /** Trim returns the one trimmed text that lies between two runs of white space. */
  lemma TrimIsUnique(s: string, left: string, mid: string, right: string)
    requires s == left + mid + right
    requires Spaces.HasAll(left) && Spaces.HasAll(right) && Trimmed(mid)
    ensures Trim(s) == mid
  {
    var a, b := |left|, |left| + |mid|;
    if mid == "" {
      assert forall i | 0 <= i < |s| :: s[i] == if i < a then left[i] else right[i - a];
      TrimRightIs(s, 0, Spaces);
    } else {
      assert s[b..] == right && s[b - 1] == mid[|mid| - 1];
      TrimRightIs(s, b, Spaces);
      assert s[..b] == left + mid && (left + mid)[..a] == left && (left + mid)[a..] == mid && (left + mid)[a] == mid[0];
      TrimLeftIs(s[..b], a, Spaces);
    }
  }

  lemma TrimShape(s: string) returns (left: string, right: string)
    ensures s == left + Trim(s) + right
    ensures Spaces.HasAll(left) && Spaces.HasAll(right) && Trimmed(Trim(s))
  {
    var r := TrimRight(s, Spaces);
    var t := TrimLeft(r, Spaces);
    TrimRightCuts(s, Spaces);
    TrimLeftCuts(r, Spaces);
    left, right := r[..|r| - |t|], s[|r|..];
    assert t != "" ==> t[|t| - 1] == r[|r| - 1];
  }

  lemma TrimOfTrimmed(s: string)
    requires Trimmed(s)
    ensures Trim(s) == s
  {
    TrimIsUnique(s, "", s, "");
  }

  lemma TrimIsIdempotent(s: string)
    ensures Trimmed(Trim(s)) && Trim(Trim(s)) == Trim(s)
  {
    var _, _ := TrimShape(s);
    TrimOfTrimmed(Trim(s));
  }

  /** White space around a text does not change what trimming leaves of it. */
  lemma TrimPadded(left: string, s: string, right: string)
    requires Spaces.HasAll(left) && Spaces.HasAll(right)
    ensures Trim(left + s + right) == Trim(s)
  {
    var l, r := TrimShape(s);
    PaddedShape(left, l, Trim(s), r, right);
    TrimIsUnique(left + s + right, left + l, Trim(s), r + right);
  }

  lemma PaddedShape(left: string, l: string, mid: string, r: string, right: string)
    ensures left + (l + mid + r) + right == (left + l) + mid + (r + right)
  {
  }

  // ------------------------------------------------------------- searching

  /** `pat` occurs in `s` at position j. */
  predicate At(s: string, pat: string, j: int) {
    0 <= j && j + |pat| <= |s| && s[j..j + |pat|] == pat
  }

  function IndexFrom(s: string, pat: string, i: nat): (r: int)
    requires i <= |s|
    ensures r == -1 || (i <= r && r + |pat| <= |s|)
    decreases |s| - i
  {
    if i + |pat| > |s| then -1
    else if At(s, pat, i) then i
    else if i == |s| then -1
    else IndexFrom(s, pat, i + 1)
  }

  lemma {:induction false} IndexFromIsFirst(s: string, pat: string, i: nat)
    requires i <= |s|
    ensures var r := IndexFrom(s, pat, i);
            && (r >= 0 ==> At(s, pat, r) && forall j | i <= j < r :: !At(s, pat, j))
            && (r < 0 ==> forall j | i <= j :: !At(s, pat, j))
    decreases |s| - i
  {
    if i + |pat| <= |s| && !At(s, pat, i) && i < |s| {
      IndexFromIsFirst(s, pat, i + 1);
    }
  }

  /** The first occurrence, or -1. */
  function Index(s: string, pat: string): (r: int)
    ensures r == -1 || (0 <= r && r + |pat| <= |s|)
  {
    IndexFrom(s, pat, 0)
  }

  lemma IndexIsFirst(s: string, pat: string)
    ensures var r := Index(s, pat);
            && (r >= 0 ==> At(s, pat, r) && forall j | 0 <= j < r :: !At(s, pat, j))
            && (r < 0 ==> forall j :: !At(s, pat, j))
  {
    IndexFromIsFirst(s, pat, 0);
  }

  predicate Contains(s: string, pat: string) {
    Index(s, pat) >= 0
  }

  /** The first occurrence is the one no other precedes. */
  lemma IndexIs(s: string, pat: string, i: nat)
    requires At(s, pat, i) && forall j | 0 <= j < i :: !At(s, pat, j)
    ensures Index(s, pat) == i
  {
    IndexIsFirst(s, pat);
  }

  function LastIndexUpTo(s: string, pat: string, i: int): (r: int)
    requires i <= |s|
    ensures r == -1 || (0 <= r <= i && r + |pat| <= |s|)
    decreases i
  {
    if i < 0 then -1
    else if At(s, pat, i) then i
    else LastIndexUpTo(s, pat, i - 1)
  }

  lemma {:induction false} LastIndexUpToIsLast(s: string, pat: string, i: int)
    requires i <= |s|
    ensures var r := LastIndexUpTo(s, pat, i);
            && (r >= 0 ==> At(s, pat, r) && forall j | r < j <= i :: !At(s, pat, j))
            && (r < 0 ==> forall j | j <= i :: !At(s, pat, j))
    decreases i
  {
    if i >= 0 && !At(s, pat, i) {
      LastIndexUpToIsLast(s, pat, i - 1);
      var r := LastIndexUpTo(s, pat, i);
      assert r == LastIndexUpTo(s, pat, i - 1);
      forall j | r < j <= i ensures !At(s, pat, j) {
        assert j == i || j <= i - 1;
      }
    }
  }

  /** The last occurrence, or -1. */
  function LastIndex(s: string, pat: string): (r: int)
    ensures r == -1 || (0 <= r && r + |pat| <= |s|)
  {
    LastIndexUpTo(s, pat, |s|)
  }

  lemma LastIndexIs(s: string, pat: string, i: nat)
    requires At(s, pat, i) && forall j | i < j :: !At(s, pat, j)
    ensures LastIndex(s, pat) == i
  {
    LastIndexUpToIsLast(s, pat, |s|);
  }

  /** Occurrences counted from left to right without overlap. */
  function Count(s: string, pat: string, from: nat): (r: nat)
    requires pat != "" && from <= |s|
    decreases |s| - from
  {
    var i := IndexFrom(s, pat, from);
    if i < 0 then 0 else 1 + Count(s, pat, i + |pat|)
  }

  // ----------------------------------------------------- splitting and joining

  /** Length of the longest prefix without white space. */
  function WordLength(s: string): (n: nat)
    ensures n <= |s|
  {
    if s == "" || IsSpace(s[0]) then 0 else 1 + WordLength(s[1..])
  }

  /** The maximal runs without white space. */
  function Fields(s: string): (r: seq<string>)
    decreases |s|
  {
    if s == "" then []
    else if IsSpace(s[0]) then Fields(s[1..])
    else [s[..WordLength(s)]] + Fields(s[WordLength(s)..])
  }

  /** The pieces between occurrences of a separator; always at least one. */
  function Split(s: string, sep: char): (r: seq<string>)
    ensures |r| >= 1
  {
    if s == "" then [""]
    else
      var rest := Split(s[1..], sep);
      if s[0] == sep then [""] + rest else [[s[0]] + rest[0]] + rest[1..]
  }

  /** Tokens with one space between them. */
  function Join(tokens: seq<string>): (r: string) {
    if tokens == [] then ""
    else if |tokens| == 1 then tokens[0]
    else tokens[0] + " " + Join(tokens[1..])
  }

  /** A token that survives being printed and split again: not empty, no white space, no
      quotation mark. */
  predicate Clean(t: string) {
    t != "" && forall i | 0 <= i < |t| :: !IsSpace(t[i]) && t[i] != '"'
  }

  ghost predicate AllClean(tokens: seq<string>) {
    forall i | 0 <= i < |tokens| :: Clean(tokens[i])
  }

  lemma AllCleanAppend(a: seq<string>, b: seq<string>)
    requires AllClean(a) && AllClean(b)
    ensures AllClean(a + b)
  {
  }

  lemma {:induction false} JoinAppend(a: seq<string>, b: seq<string>)
    requires a != [] && b != []
    ensures Join(a + b) == Join(a) + " " + Join(b)
  {
    if |a| == 1 {
      assert (a + b)[1..] == b;
    } else {
      assert (a + b)[1..] == a[1..] + b;
      JoinAppend(a[1..], b);
    }
  }

  lemma {:induction false} JoinIsTrimmed(tokens: seq<string>)
    requires AllClean(tokens)
    ensures Trimmed(Join(tokens)) && (tokens != [] ==> Join(tokens) != "" && Join(tokens)[0] == tokens[0][0])
  {
    if |tokens| > 1 {
      assert Clean(tokens[0]);
      JoinIsTrimmed(tokens[1..]);
    } else if |tokens| == 1 {
      assert Clean(tokens[0]);
    }
  }

  lemma {:induction false} WordOf(t: string, rest: string)
    requires (forall i | 0 <= i < |t| :: !IsSpace(t[i])) && (rest == "" || IsSpace(rest[0]))
    ensures WordLength(t + rest) == |t|
  {
    if t == "" {
      assert t + rest == rest;
    } else {
      WordOf(t[1..], rest);
      assert (t + rest)[0] == t[0] && (t + rest)[1..] == t[1..] + rest;
    }
  }

  /** Splitting the tokens that were joined gives them back. */
  lemma {:induction false} FieldsOfJoin(tokens: seq<string>)
    requires AllClean(tokens)
    ensures Fields(Join(tokens)) == tokens
  {
    if tokens != [] {
      var t := tokens[0];
      assert Clean(t);
      if |tokens| == 1 {
        WordOf(t, "");
        assert t + "" == t && t[..|t|] == t && t[|t|..] == "";
      } else {
        var rest := " " + Join(tokens[1..]);
        var s := t + rest;
        assert Join(tokens) == s;
        WordOf(t, rest);
        assert s[..|t|] == t && s[|t|..] == rest && rest[1..] == Join(tokens[1..]);
        FieldsOfJoin(tokens[1..]);
      }
    }
  }

  /** Clean tokens are determined by their joined text. */
  lemma JoinIsInjective(a: seq<string>, b: seq<string>)
    requires AllClean(a) && AllClean(b) && Join(a) == Join(b)
    ensures a == b
  {
    FieldsOfJoin(a);
    FieldsOfJoin(b);
  }

  /** One line per element, each ended by a newline. */
  function Unlines(lines: seq<string>): (r: string) {
    if lines == [] then "" else lines[0] + "\n" + Unlines(lines[1..])
  }

  lemma {:induction false} SplitUpToSeparator(line: string, sep: char, rest: string)
    requires sep !in line
    ensures Split(line + [sep] + rest, sep) == [line] + Split(rest, sep)
  {
    var s := line + [sep] + rest;
    if line == "" {
      assert s[0] == sep && s[1..] == rest;
    } else {
      SplitUpToSeparator(line[1..], sep, rest);
      assert s[1..] == line[1..] + [sep] + rest;
      assert s[0] == line[0] && line[0] != sep;
      assert [line[0]] + line[1..] == line;
    }
  }

  /** Lines without newlines survive being printed and split again, up to the empty piece
      after the last newline. */
  lemma {:induction false} SplitOfUnlines(lines: seq<string>)
    requires forall i | 0 <= i < |lines| :: '\n' !in lines[i]
    ensures Split(Unlines(lines), '\n') == lines + [""]
  {
    if lines != [] {
      SplitUpToSeparator(lines[0], '\n', Unlines(lines[1..]));
      assert lines[0] + "\n" + Unlines(lines[1..]) == lines[0] + ['\n'] + Unlines(lines[1..]);
      SplitOfUnlines(lines[1..]);
      assert [lines[0]] + (lines[1..] + [""]) == lines + [""];
    }
  }

  // ----------------------------------------------------------------- numbers

  predicate IsDigit(c: char) { '0' <= c <= '9' }

  function DigitChar(d: nat): (r: char)
    requires d < 10
  {
    '0' + d as char
  }

  function DigitValue(c: char): (r: nat)
    requires IsDigit(c)
  {
    (c - '0') as nat
  }

  /** Decimal digits, most significant first. */
  function Itoa(n: nat): (r: string)
    ensures r != "" && forall i | 0 <= i < |r| :: IsDigit(r[i])
  {
    if n < 10 then [DigitChar(n)] else Itoa(n / 10) + [DigitChar(n % 10)]
  }

  predicate AllDigits(s: string) {
    s != "" && forall i | 0 <= i < |s| :: IsDigit(s[i])
  }

  function DigitsValue(s: string): (r: nat)
    requires forall i | 0 <= i < |s| :: IsDigit(s[i])
  {
    if s == "" then 0 else 10 * DigitsValue(s[..|s| - 1]) + DigitValue(s[|s| - 1])
  }

  /** Atoi with its error read as zero, as the agent does. */
  function AtoiOrZero(s: string): (r: int) {
    if AllDigits(s) then DigitsValue(s)
    else if s != "" && s[0] == '+' && AllDigits(s[1..]) then DigitsValue(s[1..])
    else if s != "" && s[0] == '-' && AllDigits(s[1..]) then -(DigitsValue(s[1..]) as int)
    else 0
  }

  lemma {:induction false} DigitsOfItoa(n: nat)
    ensures DigitsValue(Itoa(n)) == n
  {
    if n < 10 {
      assert Itoa(n)[..0] == "";
    } else {
      var s := Itoa(n);
      assert s[..|s| - 1] == Itoa(n / 10);
      DigitsOfItoa(n / 10);
    }
  }

  lemma AtoiOfItoa(n: nat)
    ensures AtoiOrZero(Itoa(n)) == n
  {
    DigitsOfItoa(n);
  }

  // -------------------------------------------------------------------- case

  function UpperChar(c: char): (r: char) {
    if 'a' <= c <= 'z' then 'A' + (c - 'a') else c
  }

  function LowerChar(c: char): (r: char) {
    if 'A' <= c <= 'Z' then 'a' + (c - 'A') else c
  }

  function ToUpper(s: string): (r: string)
    ensures |r| == |s| && forall i | 0 <= i < |s| :: r[i] == UpperChar(s[i])
  {
    seq(|s|, i requires 0 <= i < |s| => UpperChar(s[i]))
  }

  function ToLower(s: string): (r: string)
    ensures |r| == |s| && forall i | 0 <= i < |s| :: r[i] == LowerChar(s[i])
  {
    seq(|s|, i requires 0 <= i < |s| => LowerChar(s[i]))
  }
}
