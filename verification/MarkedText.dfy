/** A configuration file in which a block between two markers is managed and the rest is the
    user's (internal/haproxy/manager.go:249-284), for any pair of markers. */
module MarkedText {
  import opened Text

  /** What splitting a file at the markers gives. */
  datatype Sections = Sections(unmanaged: string, managed: string) | Mismatched | Duplicated

  /** Markers are printed on one line and do not start or end with white space. */
  ghost predicate Marker(b: string) {
    b != "" && '\n' !in b && Trimmed(b)
  }

  function SplitMarked(body: string, b: string, e: string): (r: Sections)
    requires b != "" && e != ""
  {
    var begin, end := Index(body, b), Index(body, e);
    if begin < 0 && end < 0 then Sections(body, "")
    else if begin < 0 || end < 0 || end < begin then Mismatched
    else if Count(body, b, 0) != 1 || Count(body, e, 0) != 1 then Duplicated
    else Sections(Trim(body[..begin] + body[end + |e|..]), Trim(body[begin..end + |e|]))
  }

  function JoinConfig(unmanaged: string, managed: string): (r: string) {
    var u, m := TrimRight(unmanaged, Newlines), TrimLeft(managed, Newlines);
    if u == "" then m
    else if m == "" then u + "\n"
    else u + "\n\n" + m
  }

  /** A block as it is printed: it starts with the one marker, ends with the other on its
      last line, and holds no further marker. */
  ghost predicate Block(block: string, b: string, e: string) {
    && |b| < |block| - 1 - |e|
    && At(block, b, 0) && At(block, e, |block| - 1 - |e|) && block[|block| - 1] == '\n'
    && (forall j | At(block, b, j) :: j == 0)
    && (forall j | At(block, e, j) :: j == |block| - 1 - |e|)
  }

  ghost predicate Free(s: string, b: string, e: string) {
    !Contains(s, b) && !Contains(s, e)
  }

  // -------------------------------------------------------------- occurrences

  lemma ContainsIffAt(s: string, pat: string)
    ensures Contains(s, pat) <==> exists j :: At(s, pat, j)
  {
    IndexIsFirst(s, pat);
  }

  lemma CharsOfMatch(s: string, pat: string, j: int)
    requires At(s, pat, j)
    ensures forall i | j <= i < j + |pat| :: s[i] == pat[i - j] && s[i] in pat
  {
    assert forall i | j <= i < j + |pat| :: s[i] == s[j..j + |pat|][i - j];
  }

  /** What occurs across a newline occurs on one side of it. */
  lemma AcrossNewline(x: string, y: string, pat: string, j: int)
    requires pat != "" && '\n' !in pat
    ensures At(x + "\n" + y, pat, j) <==> At(x, pat, j) || (j > |x| && At(y, pat, j - |x| - 1))
  {
    var s := x + "\n" + y;
    if At(s, pat, j) {
      CharsOfMatch(s, pat, j);
      assert s[|x|] == '\n';
      assert !(j <= |x| < j + |pat|);
      if j + |pat| <= |x| {
        assert s[j..j + |pat|] == x[j..j + |pat|];
      } else {
        assert s[j..j + |pat|] == y[j - |x| - 1..j - |x| - 1 + |pat|];
      }
    }
    if At(x, pat, j) {
      assert s[j..j + |pat|] == x[j..j + |pat|];
    }
    if j > |x| && At(y, pat, j - |x| - 1) {
      assert s[j..j + |pat|] == y[j - |x| - 1..j - |x| - 1 + |pat|];
    }
  }

  /** In text followed by an empty line and a block, a marker occurs in the text or where the
      block has it. */
  lemma InJoined(u: string, m: string, pat: string, j: int)
    requires pat != "" && '\n' !in pat
    ensures At(u + "\n\n" + m, pat, j) <==> At(u, pat, j) || (j > |u| + 1 && At(m, pat, j - |u| - 2))
  {
    assert u + "\n\n" + m == u + "\n" + ("" + "\n" + m);
    AcrossNewline(u, "" + "\n" + m, pat, j);
    AcrossNewline("", m, pat, j - |u| - 1);
  }

  lemma AtPrefix(s: string, n: nat, pat: string, j: int)
    requires n <= |s| && At(s[..n], pat, j)
    ensures At(s, pat, j)
  {
    assert s[..n][j..j + |pat|] == s[j..j + |pat|];
  }

  lemma AtSuffix(s: string, n: nat, pat: string, j: int)
    requires n <= |s| && At(s[n..], pat, j)
    ensures At(s, pat, n + j)
  {
    assert s[n..][j..j + |pat|] == s[n + j..n + j + |pat|];
  }

  /** Trimming newlines from the end neither hides nor creates a marker. */
  lemma TrimRightKeepsMarkers(u: string, pat: string)
    requires Marker(pat)
    ensures Contains(TrimRight(u, Newlines), pat) <==> Contains(u, pat)
  {
    var r := TrimRight(u, Newlines);
    TrimRightCuts(u, Newlines);
    ContainsIffAt(r, pat);
    ContainsIffAt(u, pat);
    if j :| At(r, pat, j) {
      AtPrefix(u, |r|, pat, j);
    }
    if j :| At(u, pat, j) {
      CharsOfMatch(u, pat, j);
      assert forall i | |r| <= i < |u| :: u[i] == u[|r|..][i - |r|] == '\n';
      assert u[j + |pat| - 1] != '\n';
      assert r[j..j + |pat|] == u[j..j + |pat|];
      assert At(r, pat, j);
    }
  }

  lemma InMiddle(left: string, mid: string, right: string, pat: string, j: int)
    requires Marker(pat) && Spaces.HasAll(left) && Spaces.HasAll(right)
    requires At(left + mid + right, pat, j)
    ensures At(mid, pat, j - |left|)
  {
    var s := left + mid + right;
    CharsOfMatch(s, pat, j);
    assert s[j] == pat[0] && s[j + |pat| - 1] == pat[|pat| - 1];
    assert forall i | 0 <= i < |left| :: s[i] == left[i] && IsSpace(s[i]);
    assert forall i | |left| + |mid| <= i < |s| :: s[i] == right[i - |left| - |mid|] && IsSpace(s[i]);
    assert j >= |left| && j + |pat| <= |left| + |mid|;
    assert mid[j - |left|..j - |left| + |pat|] == s[j..j + |pat|];
  }

  /** Trimming white space from both ends neither hides nor creates a marker. */
  lemma TrimKeepsMarkers(u: string, pat: string)
    requires Marker(pat)
    ensures Contains(Trim(u), pat) <==> Contains(u, pat)
  {
    var left, right := TrimShape(u);
    var mid := Trim(u);
    ContainsIffAt(mid, pat);
    ContainsIffAt(u, pat);
    if j :| At(mid, pat, j) {
      assert (left + mid + right)[|left| + j..|left| + j + |pat|] == mid[j..j + |pat|];
      assert At(u, pat, |left| + j);
    }
    if j :| At(u, pat, j) {
      InMiddle(left, mid, right, pat, j);
    }
  }

  lemma CountOfNone(s: string, pat: string, from: nat)
    requires pat != "" && from <= |s| && forall j | from <= j :: !At(s, pat, j)
    ensures Count(s, pat, from) == 0
  {
    IndexFromIsFirst(s, pat, from);
  }

  lemma CountOfOne(s: string, pat: string, p: nat)
    requires pat != "" && At(s, pat, p) && forall j | At(s, pat, j) :: j == p
    ensures Index(s, pat) == p && Count(s, pat, 0) == 1
  {
    IndexIs(s, pat, p);
    CountOfNone(s, pat, p + |pat|);
  }

  lemma CountOfTwo(s: string, pat: string, j: nat, p: nat)
    requires pat != "" && At(s, pat, j) && At(s, pat, p) && j + |pat| <= p
    ensures Count(s, pat, 0) >= 2
  {
    IndexIsFirst(s, pat);
    var i := Index(s, pat);
    IndexFromIsFirst(s, pat, i + |pat|);
  }

  // ---------------------------------------------------------------- round trip

  lemma BlockEnds(block: string, b: string, e: string)
    requires Marker(b) && Marker(e) && Block(block, b, e)
    ensures TrimLeft(block, Newlines) == block && Trimmed(block[..|block| - 1]) && block != ""
  {
    assert block[0] == b[0] by { assert block[0..0 + |b|][0] == block[0]; }
    var p := |block| - 1 - |e|;
    assert block[|block| - 2] == e[|e| - 1] by { assert block[p..p + |e|][|e| - 1] == block[|block| - 2]; }
    TrimLeftIs(block, 0, Newlines);
  }

  /** Splitting what was joined gives back the text, up to outer white space, and the block
      without its last newline: if and only if the text has no marker of its own. */
  lemma SplitOfJoin(u: string, block: string, b: string, e: string)
    requires Marker(b) && Marker(e) && Block(block, b, e)
    ensures SplitMarked(JoinConfig(u, block), b, e) == Sections(Trim(u), block[..|block| - 1]) <==> Free(u, b, e)
    ensures Free(u, b, e) || !SplitMarked(JoinConfig(u, block), b, e).Sections?
  {
    BlockEnds(block, b, e);
    TrimRightKeepsMarkers(u, b);
    TrimRightKeepsMarkers(u, e);
    var r := TrimRight(u, Newlines);
    TrimRightCuts(u, Newlines);
    if Free(u, b, e) {
      TrimOfText(u);
      SplitOfFree(r, block, b, e);
    } else {
      SplitOfMarked(r, block, b, e, if Contains(r, b) then b else e);
    }
  }

  lemma TrimOfText(u: string)
    ensures Trim(TrimRight(u, Newlines) + "\n\n" + "\n") == Trim(u)
    ensures TrimRight(u, Newlines) == "" ==> Trim(u) == ""
    ensures TrimRight(u, Newlines) != "" ==> TrimRight(u, Newlines) + "\n" != ""
    ensures Trim(TrimRight(u, Newlines) + "\n") == Trim(u) && Trim(TrimRight(u, Newlines)) == Trim(u)
  {
    var r := TrimRight(u, Newlines);
    TrimRightCuts(u, Newlines);
    var tail := u[|r|..];
    assert u == "" + r + tail && Spaces.HasAll(tail);
    TrimPadded("", r, tail);
    assert r + "\n\n" + "\n" == "" + r + "\n\n\n";
    TrimPadded("", r, "\n\n\n");
    assert r + "\n" == "" + r + "\n";
    TrimPadded("", r, "\n");
  }

  lemma SplitOfFree(r: string, block: string, b: string, e: string)
    requires Marker(b) && Marker(e) && Block(block, b, e) && Free(r, b, e)
    ensures SplitMarked(r + "\n\n" + block, b, e) == Sections(Trim(r + "\n\n" + "\n"), block[..|block| - 1])
    ensures SplitMarked(block, b, e) == Sections("", block[..|block| - 1])
  {
    BlockEnds(block, b, e);
    var p := |block| - 1 - |e|;
    CountOfOne(block, b, 0);
    CountOfOne(block, e, p);
    assert "" + block == block;
    SplitAt("", block, b, e);
    TrimIsUnique("" + "\n", "", "", "\n");
    OneInJoined(r, block, b, 0);
    OneInJoined(r, block, e, p);
    SplitAt(r + "\n\n", block, b, e);
  }

  lemma SplitAt(before: string, block: string, b: string, e: string)
    requires b != "" && e != "" && |e| < |block| && Trimmed(block[..|block| - 1]) && block[|block| - 1] == '\n'
    requires Index(before + block, b) == |before| && Count(before + block, b, 0) == 1
    requires Index(before + block, e) == |before| + |block| - 1 - |e| && Count(before + block, e, 0) == 1
    ensures SplitMarked(before + block, b, e) == Sections(Trim(before + "\n"), block[..|block| - 1])
  {
    Pieces(before, block, |block| - 1);
    TrimOfTrimmed(block[..|block| - 1]);
  }

  lemma Pieces(before: string, block: string, n: nat)
    requires n + 1 == |block| && block[n] == '\n'
    ensures (before + block)[..|before|] == before
    ensures (before + block)[|before| + n..] == "\n"
    ensures (before + block)[|before|..|before| + n] == block[..n]
  {
  }

  lemma OneInJoined(r: string, block: string, pat: string, p: nat)
    requires Marker(pat) && !Contains(r, pat) && At(block, pat, p) && forall j | At(block, pat, j) :: j == p
    ensures var s := r + "\n\n" + block;
            Index(s, pat) == |r| + 2 + p && Count(s, pat, 0) == 1
  {
    var s := r + "\n\n" + block;
    ContainsIffAt(r, pat);
    InJoined(r, block, pat, |r| + 2 + p);
    forall j | At(s, pat, j) ensures j == |r| + 2 + p {
      InJoined(r, block, pat, j);
    }
    CountOfOne(s, pat, |r| + 2 + p);
  }

  lemma SplitOfMarked(r: string, block: string, b: string, e: string, pat: string)
    requires Marker(b) && Marker(e) && Block(block, b, e) && (pat == b || pat == e) && Contains(r, pat)
    ensures !SplitMarked(r + "\n\n" + block, b, e).Sections? && r != ""
  {
    var s := r + "\n\n" + block;
    var p := if pat == b then 0 else |block| - 1 - |e|;
    ContainsIffAt(r, pat);
    var j :| At(r, pat, j);
    InJoined(r, block, pat, j);
    InJoined(r, block, pat, |r| + 2 + p);
    CountOfTwo(s, pat, j, |r| + 2 + p);
    ContainsIffAt(s, pat);
    InJoined(r, block, b, |r| + 2);
    ContainsIffAt(s, b);
  }

  // -------------------------------------------------------------- empty block

  /** Without a block, what is written has no markers either, and keeps the text up to outer
      white space. */
  lemma JoinOfNothing(u: string, pat: string)
    requires Marker(pat) && !Contains(u, pat)
    ensures !Contains(JoinConfig(u, ""), pat) && Trim(JoinConfig(u, "")) == Trim(u)
  {
    var r := TrimRight(u, Newlines);
    TrimRightKeepsMarkers(u, pat);
    TrimOfText(u);
    if r != "" {
      ContainsIffAt(r, pat);
      ContainsIffAt(r + "\n", pat);
      forall j ensures !At(r + "\n", pat, j) {
        assert r + "\n" == r + "\n" + "";
        AcrossNewline(r, "", pat, j);
      }
    } else {
      ContainsIffAt("", pat);
    }
  }

  /** A block printed line by line has its markers only where it should. */
  lemma PrintedBlock(mid: seq<string>, b: string, e: string)
    requires Marker(b) && Marker(e) && !Contains(b, e) && !Contains(e, b)
    requires forall l | l in mid :: '\n' !in l && Free(l, b, e)
    ensures Block(Unlines([b] + mid + [e]), b, e)
  {
    var tail := Unlines(mid + [e]);
    assert [b] + mid + [e] == [b] + (mid + [e]);
    assert Unlines([b] + mid + [e]) == b + "\n" + tail;
    UnlinesOfTail(mid, e);
    var block := b + "\n" + tail;
    var p := |block| - 1 - |e|;
    forall j ensures At(block, b, j) <==> j == 0 {
      AcrossNewline(b, tail, b, j);
      InLines(mid, e, b, j - |b| - 1);
      ContainsIffAt(e, b);
    }
    forall j ensures At(block, e, j) <==> j == p {
      AcrossNewline(b, tail, e, j);
      InLines(mid, e, e, j - |b| - 1);
      ContainsIffAt(b, e);
    }
  }

  lemma {:induction false} UnlinesOfTail(mid: seq<string>, e: string)
    ensures Unlines(mid + [e]) == Unlines(mid) + e + "\n"
  {
    if mid == [] {
      assert [] + [e] == [e] && [e][1..] == [];
      assert Unlines([e]) == e + "\n" + "";
    } else {
      assert (mid + [e])[1..] == mid[1..] + [e];
      UnlinesOfTail(mid[1..], e);
    }
  }

  /** In lines free of a pattern, followed by a last line, the pattern occurs only where the
      last line has it. */
  lemma {:induction false} InLines(mid: seq<string>, e: string, pat: string, j: int)
    requires Marker(pat) && forall l | l in mid :: !Contains(l, pat)
    ensures At(Unlines(mid + [e]), pat, j) <==> At(e, pat, j - |Unlines(mid)|)
  {
    if mid == [] {
      assert [] + [e] == [e] && [e][1..] == [];
      assert Unlines([e]) == e + "\n" + "";
      AcrossNewline(e, "", pat, j);
    } else {
      assert (mid + [e])[1..] == mid[1..] + [e];
      AcrossNewline(mid[0], Unlines(mid[1..] + [e]), pat, j);
      ContainsIffAt(mid[0], pat);
      InLines(mid[1..], e, pat, j - |mid[0]| - 1);
      if At(e, pat, j - |Unlines(mid)|) {
        assert j >= |Unlines(mid)|;
      }
    }
  }

  // -------------------------------------------------------------------- seams

  lemma NoneAfter(s: string, pat: string)
    requires pat != "" && Index(s, pat) >= 0 && Count(s, pat, 0) == 1
    ensures forall j | j < Index(s, pat) || Index(s, pat) + |pat| <= j :: !At(s, pat, j)
  {
    IndexIsFirst(s, pat);
    IndexFromIsFirst(s, pat, Index(s, pat) + |pat|);
  }

  /** The block stands on lines of its own, on one side at least. */
  predicate OnOwnLines(body: string, b: string, e: string) {
    var begin, end := Index(body, b), Index(body, e) + |e|;
    begin <= 0 || body[begin - 1] == '\n' || end >= |body| || body[end] == '\n'
  }

  /** Where the markers of a file that can be split occur: nowhere outside the block. */
  lemma OnlyInBlock(body: string, b: string, e: string)
    requires Marker(b) && Marker(e) && !Contains(b, e)
    requires SplitMarked(body, b, e).Sections? && Contains(body, b)
    ensures forall j | At(body, b, j) :: Index(body, b) < j + |b| && j < Index(body, e) + |e|
    ensures forall j | At(body, e, j) :: Index(body, b) < j + |e| && j < Index(body, e) + |e|
  {
    NoneAfter(body, b);
    NoneAfter(body, e);
    IndexIsFirst(body, b);
    IndexIsFirst(body, e);
    EndIsBehind(body, b, e, Index(body, b), Index(body, e));
  }

  lemma Subslice(s: string, a: nat, n: nat, i: nat, m: nat)
    requires a + n <= |s| && i + m <= n
    ensures s[a..a + n][i..i + m] == s[a + i..a + i + m]
  {
    var x := s[a..a + n];
    var left, right := x[i..i + m], s[a + i..a + i + m];
    assert forall k | 0 <= k < m :: left[k] == right[k];
  }

  lemma EndIsBehind(body: string, b: string, e: string, begin: nat, end: nat)
    requires At(body, b, begin) && At(body, e, end) && begin <= end && !Contains(b, e)
    ensures begin + |b| < end + |e|
  {
    var i := end - begin;
    if i + |e| <= |b| {
      Subslice(body, begin, |b|, i, |e|);
      assert b[i..i + |e|] == e;
      assert At(b, e, i);
      ContainsIffAt(b, e);
    }
  }

  /** Taking out a block that stands on lines of its own leaves no marker behind. */
  lemma NoSeam(body: string, b: string, e: string)
    requires Marker(b) && Marker(e) && !Contains(b, e)
    requires SplitMarked(body, b, e).Sections? && Contains(body, b)
    requires OnOwnLines(body, b, e)
    ensures Free(SplitMarked(body, b, e).unmanaged, b, e)
  {
    var begin, end := Index(body, b), Index(body, e) + |e|;
    OnlyInBlock(body, b, e);
    var pre, post := body[..begin], body[end..];
    NoSeamFor(pre, post, body, b, end);
    NoSeamFor(pre, post, body, e, end);
    TrimKeepsMarkers(pre + post, b);
    TrimKeepsMarkers(pre + post, e);
  }

  lemma NoSeamFor(pre: string, post: string, body: string, pat: string, end: nat)
    requires Marker(pat) && |pre| <= end <= |body| && pre == body[..|pre|] && post == body[end..]
    requires forall j | At(body, pat, j) :: |pre| < j + |pat| && j < end
    requires pre == "" || pre[|pre| - 1] == '\n' || post == "" || post[0] == '\n'
    ensures !Contains(pre + post, pat)
  {
    ContainsIffAt(pre + post, pat);
    forall j ensures !At(pre, pat, j) && !At(post, pat, j) {
      if At(pre, pat, j) {
        AtPrefix(body, |pre|, pat, j);
      }
      if At(post, pat, j) {
        AtSuffix(body, end, pat, j);
      }
    }
    if pre == "" {
      assert pre + post == post;
    } else if post == "" {
      assert pre + post == pre;
    } else if pre[|pre| - 1] == '\n' {
      var front := pre[..|pre| - 1];
      assert pre + post == front + "\n" + post;
      forall j ensures !At(pre + post, pat, j) {
        AcrossNewline(front, post, pat, j);
        if At(front, pat, j) {
          AtPrefix(pre, |front|, pat, j);
        }
      }
    } else {
      var back := post[1..];
      assert pre + post == pre + "\n" + back;
      forall j ensures !At(pre + post, pat, j) {
        AcrossNewline(pre, back, pat, j);
        if At(back, pat, j - |pre| - 1) {
          assert post[j - |pre|..j - |pre| + |pat|] == back[j - |pre| - 1..j - |pre| - 1 + |pat|];
          assert At(post, pat, j - |pre|);
        }
      }
    }
  }

  /** A marker that starts with a character it does not repeat. */
  ghost predicate Sharp(b: string) {
    Marker(b) && |b| > 3 && forall i | 0 < i < |b| :: b[i] != b[0]
  }

  /** A block squeezed between the two halves of a marker can be split off, but then the
      halves meet: what is left is a marker. */
  lemma SeamMakesMarker(b: string, e: string, k: nat)
    requires Sharp(b) && Sharp(e) && b[0] == e[0] && b[2] != e[2] && 2 < k < |b|
    ensures SplitMarked(b[..k] + (b + "\n" + e) + b[k..], b, e) == Sections(b, b + "\n" + e)
  {
    var block := b + "\n" + e;
    var s := b[..k] + block + b[k..];
    SqueezedMarkers(b, e, k, s);
    CountOfOne(s, b, k);
    CountOfOne(s, e, k + |b| + 1);
    Around(b[..k], block, b[k..]);
    assert b[..k] + b[k..] == b;
    TrimOfTrimmed(b);
    TrimOfTrimmed(block);
  }

  lemma Around(x: string, y: string, z: string)
    ensures (x + y + z)[..|x|] == x && (x + y + z)[|x| + |y|..] == z && (x + y + z)[|x|..|x| + |y|] == y
  {
  }

  lemma SqueezedMarkers(b: string, e: string, k: nat, s: string)
    requires Sharp(b) && Sharp(e) && b[0] == e[0] && b[2] != e[2] && 2 < k < |b|
    requires s == b[..k] + (b + "\n" + e) + b[k..]
    ensures forall j :: At(s, b, j) <==> j == k
    ensures forall j :: At(s, e, j) <==> j == k + |b| + 1
  {
    var n := k + |b| + 1;
    assert s[k..k + |b|] == b && s[n..n + |e|] == e;
    assert forall i | 0 <= i < |s| :: s[i] == b[0] <==> i == 0 || i == k || i == n;
    forall j ensures At(s, b, j) <==> j == k {
      MatchesFirst(s, b, j);
      assert s[k] == b[0] && s[n + 2] == e[2];
      MatchesAt(s, b, 0, k);
    }
    forall j ensures At(s, e, j) <==> j == n {
      MatchesFirst(s, e, j);
      assert s[2] == b[2] && s[k + 2] == b[2];
    }
  }

  lemma MatchesFirst(s: string, pat: string, j: int)
    requires |pat| > 2
    ensures At(s, pat, j) ==> s[j] == pat[0] && s[j + 2] == pat[2]
  {
    MatchesAt(s, pat, j, 0);
    MatchesAt(s, pat, j, 2);
  }

  lemma MatchesAt(s: string, pat: string, j: int, i: nat)
    requires i < |pat|
    ensures At(s, pat, j) ==> s[j + i] == pat[i]
  {
    assert At(s, pat, j) ==> s[j..j + |pat|][i] == s[j + i];
  }
}
