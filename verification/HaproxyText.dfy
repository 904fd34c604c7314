/** The managed section of the HAProxy configuration as text: how it is found, printed,
    replaced and read back (internal/haproxy/manager.go:177-331, 366-394). */
module HaproxyText {
  import opened Model
  import opened Text
  import opened MarkedText

  const BEGIN := "# BEGIN TRANSITFORGE MANAGED"
  const END := "# END TRANSITFORGE MANAGED"
  const LEGACY_BEGIN := "# BEGIN PROXYCTL MANAGED"
  const LEGACY_END := "# END PROXYCTL MANAGED"

  /** The markers of the older release count only where there are none of the current one. */
  function SplitManaged(body: string): (r: Sections) {
    var s := SplitMarked(body, BEGIN, END);
    if !s.Sections? || s.managed != "" || Contains(body, BEGIN) || Contains(body, END) then s
    else SplitMarked(body, LEGACY_BEGIN, LEGACY_END)
  }

  /** Text without any of the four markers. */
  ghost predicate Unmarked(u: string) {
    Free(u, BEGIN, END) && Free(u, LEGACY_BEGIN, LEGACY_END)
  }

  /** A managed block as it is printed. */
  ghost predicate ManagedBlock(block: string) { Block(block, BEGIN, END) }

  lemma MarkersAreMarkers()
    ensures Marker(BEGIN) && Marker(END) && Marker(LEGACY_BEGIN) && Marker(LEGACY_END)
    ensures !Contains(BEGIN, END) && !Contains(END, BEGIN)
  {
    CurrentMarkers();
    LegacyMarkers();
    MarkersDiffer(BEGIN, END);
  }

  lemma CurrentMarkers()
    ensures Marker(BEGIN) && Marker(END)
  {
  }

  lemma LegacyMarkers()
    ensures Marker(LEGACY_BEGIN) && Marker(LEGACY_END)
  {
  }

  lemma MarkersStart(b: string, e: string)
    requires b == BEGIN && e == END
    ensures |b| == 28 && |e| == 26
    ensures b[0] == '#' && b[1] == ' ' && b[2] == 'B'
    ensures e[0] == '#' && e[2] == 'E'
  {
  }

  lemma StartsDiffer(b: string, e: string)
    requires |b| == |e| + 2 && 3 <= |e|
    requires b[0] == '#' && b[1] == ' ' && b[2] == 'B' && e[0] == '#' && e[2] == 'E'
    ensures !Contains(b, e) && !Contains(e, b)
  {
    ContainsIffAt(b, e);
    ContainsIffAt(e, b);
    forall j ensures !At(b, e, j) {
      assert 0 <= j <= 2 ==> b[j..j + |e|][0] == b[j] && b[j..j + |e|][2] == b[j + 2];
    }
  }

  lemma MarkersDiffer(b: string, e: string)
    requires b == BEGIN && e == END
    ensures !Contains(b, e) && !Contains(e, b)
  {
    MarkersStart(b, e);
    StartsDiffer(b, e);
  }

  // ----------------------------------------------------------- reading back

  /** Reading back what was written gives the user's text, up to outer white space, and the
      block: exactly when the text holds no marker of its own. */
  lemma ReadBackIffFree(u: string, block: string)
    requires ManagedBlock(block)
    ensures SplitManaged(JoinConfig(u, block)) == Sections(Trim(u), block[..|block| - 1]) <==> Free(u, BEGIN, END)
    ensures Free(u, BEGIN, END) || !SplitManaged(JoinConfig(u, block)).Sections?
  {
    MarkersAreMarkers();
    SplitOfJoin(u, block, BEGIN, END);
  }

  /** Without a block, the text is all there is. */
  lemma ReadBackNothing(u: string)
    requires Unmarked(u)
    ensures SplitManaged(JoinConfig(u, "")) == Sections(JoinConfig(u, ""), "")
    ensures Unmarked(JoinConfig(u, "")) && Trim(JoinConfig(u, "")) == Trim(u)
  {
    MarkersAreMarkers();
    JoinOfNothing(u, BEGIN);
    JoinOfNothing(u, END);
    JoinOfNothing(u, LEGACY_BEGIN);
    JoinOfNothing(u, LEGACY_END);
  }

  lemma UnmarkedText(u: string)
    requires Unmarked(u)
    ensures SplitManaged(u) == Sections(u, "")
    ensures Unmarked(Trim(u)) && Unmarked(TrimRight(u, Newlines))
  {
    MarkersAreMarkers();
    TrimKeepsMarkers(u, BEGIN);
    TrimKeepsMarkers(u, END);
    TrimKeepsMarkers(u, LEGACY_BEGIN);
    TrimKeepsMarkers(u, LEGACY_END);
    TrimRightKeepsMarkers(u, BEGIN);
    TrimRightKeepsMarkers(u, END);
    TrimRightKeepsMarkers(u, LEGACY_BEGIN);
    TrimRightKeepsMarkers(u, LEGACY_END);
  }

  // ------------------------------------------------------ sequences of edits

  /** Replacing the managed block; None if the file cannot be split. */
  function Rewritten(body: string, block: string): (r: Option<string>) {
    var s := SplitManaged(body);
    if s.Sections? then Some(JoinConfig(s.unmanaged, block)) else None
  }

  /** A file after a sequence of replacements. */
  function Edited(body: string, blocks: seq<string>): (r: Option<string>) {
    if blocks == [] then Some(body)
    else
      var n := |blocks| - 1;
      var before := Edited(body, blocks[..n]);
      if before.None? then None else Rewritten(before.value, blocks[n])
  }

  ghost predicate Printable(blocks: seq<string>) {
    forall m | m in blocks :: m == "" || ManagedBlock(m)
  }

  ghost predicate AllEmpty(blocks: seq<string>) {
    forall m | m in blocks :: m == ""
  }

  /** The user's text as later edits see it. */
  ghost function Settled(u: string, before: seq<string>): (r: string) {
    if AllEmpty(before) then u else Trim(u)
  }

  lemma JoinIgnoresNewlines(u: string, v: string, m: string)
    requires TrimRight(u, Newlines) == TrimRight(v, Newlines)
    ensures JoinConfig(u, m) == JoinConfig(v, m)
  {
  }

  /** What one edit makes of what another one left. */
  lemma OneEdit(x: string, last: string, block: string)
    requires Unmarked(x) && (last == "" || ManagedBlock(last))
    ensures Rewritten(JoinConfig(x, last), block) == Some(JoinConfig(if last == "" then x else Trim(x), block))
  {
    if last == "" {
      ReadBackNothing(x);
      TrimRightOfNothing(x);
      JoinIgnoresNewlines(JoinConfig(x, ""), x, block);
    } else {
      ReadBackIffFree(x, last);
    }
  }

  lemma SettledOnce(u: string, before: seq<string>, last: string)
    ensures Settled(u, before + [last]) == if last == "" then Settled(u, before) else Trim(u)
    ensures Unmarked(u) ==> Unmarked(Settled(u, before))
    ensures Trim(Settled(u, before)) == Trim(u)
  {
    assert forall m :: m in before + [last] <==> m in before || m == last;
    assert last in before + [last];
    TrimIsIdempotent(u);
    if Unmarked(u) {
      UnmarkedText(u);
    }
  }

  /** After any sequence of edits of a readable file, adding, replacing and removing blocks,
      the file is the user's text followed by the last block. */
  lemma {:induction false} EditsKeepText(body: string, blocks: seq<string>)
    requires SplitManaged(body).Sections? && Unmarked(SplitManaged(body).unmanaged)
    requires Printable(blocks) && blocks != []
    ensures var u, n := SplitManaged(body).unmanaged, |blocks| - 1;
            Edited(body, blocks) == Some(JoinConfig(Settled(u, blocks[..n]), blocks[n]))
    decreases |blocks|
  {
    var u, n := SplitManaged(body).unmanaged, |blocks| - 1;
    if n > 0 {
      var before, last := blocks[..n - 1], blocks[n - 1];
      assert blocks[..n] == before + [last] && blocks[..n][..n - 1] == before;
      EditsKeepText(body, blocks[..n]);
      SettledOnce(u, before, last);
      OneEdit(Settled(u, before), last, blocks[n]);
    }
  }

  lemma TrimRightOfNothing(x: string)
    ensures TrimRight(JoinConfig(x, ""), Newlines) == TrimRight(x, Newlines)
  {
    var r := TrimRight(x, Newlines);
    TrimRightCuts(x, Newlines);
    if r != "" {
      assert (r + "\n")[..|r|] == r && (r + "\n")[|r|..] == "\n";
      TrimRightIs(r + "\n", |r|, Newlines);
    }
  }

  /** What is read back of text and a last block. */
  lemma LastIsReadBack(x: string, last: string)
    requires Unmarked(x) && (last == "" || ManagedBlock(last))
    ensures var after := SplitManaged(JoinConfig(x, last));
            && after.Sections? && Trim(after.unmanaged) == Trim(x)
            && after.managed == if last == "" then "" else last[..|last| - 1]
  {
    TrimIsIdempotent(x);
    if last == "" {
      ReadBackNothing(x);
    } else {
      ReadBackIffFree(x, last);
    }
  }

  /** The user's text survives every sequence of edits, up to outer white space. */
  lemma UserTextSurvives(body: string, blocks: seq<string>)
    requires SplitManaged(body).Sections? && Unmarked(SplitManaged(body).unmanaged) && Printable(blocks)
    ensures Edited(body, blocks).Some?
    ensures var after := SplitManaged(Edited(body, blocks).value);
            && after.Sections? && Trim(after.unmanaged) == Trim(SplitManaged(body).unmanaged)
            && (blocks != [] ==>
                  var m := blocks[|blocks| - 1];
                  after.managed == if m == "" then "" else m[..|m| - 1])
  {
    if blocks != [] {
      var u, n := SplitManaged(body).unmanaged, |blocks| - 1;
      EditsKeepText(body, blocks);
      assert blocks[n] in blocks;
      SettledOnce(u, blocks[..n], blocks[n]);
      LastIsReadBack(Settled(u, blocks[..n]), blocks[n]);
    }
  }

  /** Writing the same block again is a fixed point from the second time on; and from the
      first exactly when the user's text has no outer white space but newlines at its end. */
  lemma RewritingSettles(u: string, block: string)
    requires Unmarked(u) && ManagedBlock(block)
    ensures Edited(u, [block, block]) == Some(JoinConfig(Trim(u), block))
    ensures Edited(u, [block, block, block]) == Edited(u, [block, block])
    ensures Edited(u, [block]) == Edited(u, [block, block]) <==> TrimRight(u, Newlines) == Trim(u)
  {
    UnmarkedText(u);
    var once, twice, thrice := [block], [block, block], [block, block, block];
    assert twice[..1] == once && thrice[..2] == twice && once[..0] == [];
    assert block in once && block in twice && block != "";
    EditsKeepText(u, once);
    EditsKeepText(u, twice);
    EditsKeepText(u, thrice);
    JoinShowsOuterSpace(u, block);
  }

  lemma JoinShowsOuterSpace(u: string, block: string)
    requires ManagedBlock(block)
    ensures JoinConfig(u, block) == JoinConfig(Trim(u), block) <==> TrimRight(u, Newlines) == Trim(u)
  {
    MarkersAreMarkers();
    BlockEnds(block, BEGIN, END);
    TrimIsIdempotent(u);
    TrimRightIs(Trim(u), |Trim(u)|, Newlines);
    if JoinConfig(u, block) == JoinConfig(Trim(u), block) {
      SameFront(TrimRight(u, Newlines), Trim(u), block);
    }
  }

  lemma SameFront(x: string, y: string, m: string)
    requires (if x == "" then m else x + "\n\n" + m) == (if y == "" then m else y + "\n\n" + m)
    ensures x == y
  {
    assert x != "" ==> |x + "\n\n" + m| == |x| + 2 + |m|;
    if x != "" {
      assert (x + "\n\n" + m)[..|x|] == x && (y + "\n\n" + m)[..|y|] == y;
    }
  }

  lemma JoinWithNone(v: string, none: string)
    requires TrimRight(v, Newlines) == v && none == ""
    ensures JoinConfig(v, none) == if v == "" then "" else v + "\n"
  {
  }

  lemma AddThenWrite(u: string, block: string, next: string, both: seq<string>)
    requires Unmarked(u) && ManagedBlock(block) && (next == "" || ManagedBlock(next)) && both == [block, next]
    ensures Edited(u, both) == Some(JoinConfig(Trim(u), next))
  {
    UnmarkedText(u);
    assert both[..1] == [block] && block in both[..1] && block != "";
    EditsKeepText(u, both);
  }

  /** Adding a block and removing it gives back the user's text up to outer white space. */
  lemma AddThenRemove(u: string, block: string)
    requires Unmarked(u) && ManagedBlock(block)
    ensures Edited(u, [block, ""]) == Some(if Trim(u) == "" then "" else Trim(u) + "\n")
  {
    AddThenWrite(u, block, "", [block, ""]);
    TrimIsIdempotent(u);
    TrimRightIs(Trim(u), |Trim(u)|, Newlines);
    JoinWithNone(Trim(u), "");
  }

  // -------------------------------------------------------------------- seams

  /** A file whose block stands on lines of its own can be rewritten and read back for good;
      its older markers, if any, must not be part of the user's text. */
  lemma OwnLinesAreReadable(body: string)
    requires SplitManaged(body).Sections? && Contains(body, BEGIN) && OnOwnLines(body, BEGIN, END)
    ensures Free(SplitManaged(body).unmanaged, BEGIN, END)
  {
    MarkersAreMarkers();
    NoSeam(body, BEGIN, END);
  }

  /** A file whose block was squeezed into a marker can be split, but once rewritten it can
      not be read again. */
  lemma SeamIsFatal(k: nat, block: string)
    requires 2 < k < |BEGIN| && ManagedBlock(block)
    ensures var body := BEGIN[..k] + (BEGIN + "\n" + END) + BEGIN[k..];
            && SplitManaged(body).Sections?
            && Rewritten(body, block).Some?
            && !SplitManaged(Rewritten(body, block).value).Sections?
  {
    MarkersAreMarkers();
    var body := BEGIN[..k] + (BEGIN + "\n" + END) + BEGIN[k..];
    MarkersAreSharp();
    SeamMakesMarker(BEGIN, END, k);
    ContainsIffAt(BEGIN, BEGIN);
    assert At(BEGIN, BEGIN, 0);
    ReadBackIffFree(BEGIN, block);
  }

  lemma MarkersAreSharp()
    ensures Sharp(BEGIN) && Sharp(END) && BEGIN[0] == END[0] && BEGIN[2] != END[2]
  {
    CurrentMarkers();
  }
}
