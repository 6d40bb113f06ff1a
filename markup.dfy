/**
 * The plaintext body of an alert, derived from its HTML body in two
 * regular-expression replacements: first the one match of
 * `<head>[\s\S]*</head>` is removed, then every match of `<[^>]*>`.
 */
module Markup {
  import opened Text

  const HeadOpen := "<head>"
  const HeadClose := "</head>"

  /** `s[i..j + |close|]` is a match of `open[\s\S]*close`. */
  predicate Block(s: string, open: string, close: string, i: int, j: int) {
    OccursAt(s, open, i) && i + |open| <= j && OccursAt(s, close, j)
  }

  /** Where a regular expression `open[\s\S]*close` matches: at the first `open`, up to the last `close` behind it. */
  function FindBlock(s: string, open: string, close: string): (r: Option<(nat, nat)>)
    ensures r.Some? ==> r.value.0 + |open| <= r.value.1 && r.value.1 + |close| <= |s|
  {
    match FindFirst(s, open, 0)
    case None => None
    case Some(i) =>
      match FindLast(s, close, i + |open|)
      case None => None
      case Some(j) => Some((i, j))
  }

  /**
   * The match found is the one a regular expression engine picks: the
   * leftmost one, made as long as possible by the greedy `[\s\S]*`; and
   * nothing is found only when there is no match at all.
   */
  lemma FindBlockLeftmostLongest(s: string, open: string, close: string)
    ensures FindBlock(s, open, close).Some? ==>
      var (i, j) := FindBlock(s, open, close).value;
      Block(s, open, close, i, j) && forall i', j' :: Block(s, open, close, i', j') ==> i <= i' && j' <= j
    ensures FindBlock(s, open, close).None? ==> forall i, j :: !Block(s, open, close, i, j)
  {
    var first := FindFirst(s, open, 0);
    FindFirstLeftmost(s, open, 0);
    if first.Some? {
      FindLastRightmost(s, close, first.value + |open|);
    }
    if FindBlock(s, open, close).None? {
      forall i', j'
        ensures !Block(s, open, close, i', j')
      {
        if OccursAt(s, open, i') && i' + |open| <= j' {
          assert first.Some? && first.value <= i';
        }
      }
    }
  }

  /** The first replacement: the first `<head>` to the last `</head>` behind it is cut out, if there is one. */
  function RemoveHead(s: string): string {
    match FindBlock(s, HeadOpen, HeadClose)
    case None => s
    case Some((i, j)) => s[..i] + s[j + |HeadClose|..]
  }

  /** RemoveHead removes the leftmost, longest `<head>...</head>` block, and nothing when there is none. */
  lemma RemoveHeadCutsLeftmostLongest(s: string)
    ensures (exists i, j :: Block(s, HeadOpen, HeadClose, i, j)) ==>
      exists i, j :: Block(s, HeadOpen, HeadClose, i, j) && RemoveHead(s) == s[..i] + s[j + |HeadClose|..] &&
        forall i', j' :: Block(s, HeadOpen, HeadClose, i', j') ==> i <= i' && j' <= j
    ensures (forall i, j :: !Block(s, HeadOpen, HeadClose, i, j)) ==> RemoveHead(s) == s
  {
    FindBlockLeftmostLongest(s, HeadOpen, HeadClose);
    if FindBlock(s, HeadOpen, HeadClose).Some? {
      var (i, j) := FindBlock(s, HeadOpen, HeadClose).value;
      assert Block(s, HeadOpen, HeadClose, i, j);
    }
  }

  /**
   * The second replacement, global: a `<` starts a match that ends at the
   * first `>` behind it; a `<` with no `>` anywhere behind it stays.
   */
  function StripTags(s: string): string
    decreases |s|
  {
    if s == [] then []
    else if s[0] == '<' then
      match FindFirst(s, ">", 1)
      case Some(q) => StripTags(s[q + 1..])
      case None => [s[0]] + StripTags(s[1..])
    else [s[0]] + StripTags(s[1..])
  }

  /** The plaintext body sent beside the HTML body. */
  function Plaintext(html: string): string {
    StripTags(RemoveHead(html))
  }

  /** No `<` is followed, anywhere later, by a `>`: nothing tag-like is left. */
  predicate NoTagLeft(s: string) {
    forall i, j :: 0 <= i < j < |s| && s[i] == '<' ==> s[j] != '>'
  }

  lemma NoCloseBehind(s: string)
    requires s != []
    requires forall k :: 1 <= k ==> !OccursAt(s, ">", k)
    ensures '>' !in s[1..]
  {
    forall m | 0 <= m < |s[1..]|
      ensures s[1..][m] != '>'
    {
      assert s[m + 1..m + 2] == [s[1..][m]];
      assert !OccursAt(s, ">", m + 1);
    }
  }

  /** Removing the head block only deletes characters. */
  lemma RemoveHeadSubseq(s: string)
    ensures Subseq(RemoveHead(s), s)
  {
    var found := FindBlock(s, HeadOpen, HeadClose);
    var cut := if found.Some? then (found.value.0, found.value.1 + |HeadClose|) else (0, 0);
    assert RemoveHead(s) == s[..cut.0] + s[cut.1..];
    SubseqCut(s, cut.0, cut.1);
  }

  /** Stripping tags only deletes characters. */
  lemma {:induction false} StripTagsSubseq(s: string)
    ensures Subseq(StripTags(s), s)
    decreases |s|
  {
    if s != [] {
      if s[0] == '<' && FindFirst(s, ">", 1).Some? {
        var q := FindFirst(s, ">", 1).value;
        StripTagsSubseq(s[q + 1..]);
        SubseqSuffix(s, q + 1);
        SubseqTrans(StripTags(s), s[q + 1..], s);
      } else {
        StripTagsSubseq(s[1..]);
        var r := StripTags(s);
        assert r[0] == s[0] && r[1..] == StripTags(s[1..]);
      }
    }
  }

  /** After stripping, no `<` has a `>` anywhere behind it. */
  lemma {:induction false} StripTagsLeavesNoTag(s: string)
    ensures NoTagLeft(StripTags(s))
    decreases |s|
  {
    if s != [] {
      if s[0] == '<' && FindFirst(s, ">", 1).Some? {
        StripTagsLeavesNoTag(s[FindFirst(s, ">", 1).value + 1..]);
      } else {
        var tail := StripTags(s[1..]);
        StripTagsLeavesNoTag(s[1..]);
        if s[0] == '<' {
          FindFirstLeftmost(s, ">", 1);
          NoCloseBehind(s);
          StripTagsSubseq(s[1..]);
          SubseqChars(tail, s[1..], '>');
        }
        var r := StripTags(s);
        assert r == [s[0]] + tail;
        forall i, j | 0 <= i < j < |r| && r[i] == '<'
          ensures r[j] != '>'
        {
          assert r[j] == tail[j - 1];
          if i > 0 {
            assert r[i] == tail[i - 1];
          }
        }
      }
    }
  }

  /** Text with nothing tag-like in it passes through unchanged. */
  lemma {:induction false} StripTagsKeepsPlainText(s: string)
    requires NoTagLeft(s)
    ensures StripTags(s) == s
    decreases |s|
  {
    if s != [] {
      if s[0] == '<' {
        forall k | 1 <= k
          ensures !OccursAt(s, ">", k)
        {
          if k < |s| {
            assert s[k] != '>';
            assert s[k..k + 1] == [s[k]];
          }
        }
      }
      assert NoTagLeft(s[1..]) by {
        forall i, j | 0 <= i < j < |s[1..]| && s[1..][i] == '<'
          ensures s[1..][j] != '>'
        {
          assert s[i + 1] == '<';
        }
      }
      StripTagsKeepsPlainText(s[1..]);
      assert s == [s[0]] + s[1..];
    }
  }

  /** In a text that opens with `<` and holds a `>`, the first `>` after the opening ends the tag. */
  lemma TagEndsAtFirstClose(y: string, z: string)
    requires '>' !in y
    ensures FindFirst("<" + y + ">" + z, ">", 1) == Some(|y| + 1)
  {
    var s := "<" + y + ">" + z;
    FindFirstLeftmost(s, ">", 1);
    assert s[|y| + 1..|y| + 2] == ">";
    assert OccursAt(s, ">", |y| + 1);
    assert forall m :: 1 <= m <= |y| ==> s[m] == y[m - 1];
    var q := FindFirst(s, ">", 1).value;
    assert s[q] == '>' by {
      assert s[q..q + 1][0] == s[q];
    }
  }

  /**
   * A tag is cut out whole and the text before it is kept: the text between
   * tags survives stripping.
   */
  lemma {:induction false} StripTagsCutsTag(x: string, y: string, z: string)
    requires '<' !in x && '>' !in y
    ensures StripTags(x + "<" + y + ">" + z) == x + StripTags(z)
    decreases |x|
  {
    var s := x + "<" + y + ">" + z;
    if x == [] {
      assert s == "<" + y + ">" + z;
      TagEndsAtFirstClose(y, z);
      assert s[|y| + 2..] == z;
    } else {
      assert s[0] == x[0] && s[0] != '<';
      assert s[1..] == x[1..] + "<" + y + ">" + z;
      StripTagsCutsTag(x[1..], y, z);
      assert x == [x[0]] + x[1..];
    }
  }

  /** Stripping twice strips no more than stripping once. */
  lemma StripTagsIdempotent(s: string)
    ensures StripTags(StripTags(s)) == StripTags(s)
  {
    StripTagsLeavesNoTag(s);
    StripTagsKeepsPlainText(StripTags(s));
  }

  /** The plaintext body is the HTML body with characters deleted, and nothing tag-like is left in it. */
  lemma PlaintextOfHtml(html: string)
    ensures Subseq(Plaintext(html), html)
    ensures NoTagLeft(Plaintext(html))
  {
    RemoveHeadSubseq(html);
    StripTagsSubseq(RemoveHead(html));
    SubseqTrans(Plaintext(html), RemoveHead(html), html);
    StripTagsLeavesNoTag(RemoveHead(html));
  }
}
