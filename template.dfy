/**
 * The alert template renderer: each key of the value object, in order,
 * replaces every `{{key}}` token of the text with its value, the way a
 * global regular expression `replace` does for a token made of ordinary
 * characters.
 */
module Template {
  import opened Text

  /** The placeholder token for a key. */
  function Token(key: string): (t: string)
    ensures |t| == |key| + 4
  {
    "{{" + key + "}}"
  }

  /**
   * Replace every occurrence of `p` in `s` by `v`, scanning from the left:
   * after a match the search resumes behind it, so matches never overlap and
   * text coming from `v` is never searched again.
   */
  function ReplaceAll(s: string, p: string, v: string): string
    requires |p| > 0
    decreases |s|
  {
    if |s| < |p| then s
    else if s[..|p|] == p then v + ReplaceAll(s[|p|..], p, v)
    else [s[0]] + ReplaceAll(s[1..], p, v)
  }

  lemma AbsentInTail(s: string, p: string)
    requires s != [] && Absent(s, p)
    ensures Absent(s[1..], p)
  {
    forall i | 0 <= i <= |s[1..]|
      ensures !OccursAt(s[1..], p, i)
    {
      if OccursAt(s[1..], p, i) {
        assert s[i + 1..i + 1 + |p|] == s[1..][i..i + |p|];
        assert OccursAt(s, p, i + 1);
      }
    }
  }

  /** A text without the token is left as it is. */
  lemma {:induction false} ReplaceAbsent(s: string, p: string, v: string)
    requires |p| > 0 && Absent(s, p)
    ensures ReplaceAll(s, p, v) == s
    decreases |s|
  {
    if |s| >= |p| {
      assert !OccursAt(s, p, 0);
      AbsentInTail(s, p);
      ReplaceAbsent(s[1..], p, v);
      assert s == [s[0]] + s[1..];
    }
  }

  /** Unfolding ReplaceAll where the token starts the text. */
  lemma ReplaceAtStart(s: string, p: string, v: string)
    requires |p| > 0 && p <= s
    ensures ReplaceAll(s, p, v) == v + ReplaceAll(s[|p|..], p, v)
  {
    assert s[..|p|] == p;
  }

  /** Unfolding ReplaceAll where the token does not start the text. */
  lemma ReplaceNotAtStart(s: string, p: string, v: string)
    requires |p| > 0 && s != [] && !(p <= s)
    ensures ReplaceAll(s, p, v) == [s[0]] + ReplaceAll(s[1..], p, v)
  {
    if |s| < |p| {
      assert s == [s[0]] + s[1..];
      assert |s[1..]| < |p|;
    } else {
      assert s[..|p|] != p;
    }
  }

  lemma OccursInTail(s: string, p: string, k: nat)
    requires s != []
    ensures OccursAt(s[1..], p, k) <==> OccursAt(s, p, k + 1)
  {
    if k + 1 + |p| <= |s| {
      assert s[1..][k..k + |p|] == s[k + 1..k + 1 + |p|];
    }
  }

  /** An occurrence at 0 is a prefix. */
  lemma OccursAtStart(s: string, p: string)
    ensures OccursAt(s, p, 0) <==> p <= s
  {
    if |p| <= |s| {
      assert s[0..|p|] == s[..|p|];
    }
  }

  /** No occurrence before `i` in `s` means none before `i - 1` in its tail. */
  lemma NoneEarlierInTail(s: string, p: string, i: nat)
    requires s != [] && 0 < i
    requires forall k :: 0 <= k < i ==> !OccursAt(s, p, k)
    ensures forall k :: 0 <= k < i - 1 ==> !OccursAt(s[1..], p, k)
  {
    forall k | 0 <= k < i - 1
      ensures !OccursAt(s[1..], p, k)
    {
      OccursInTail(s, p, k);
    }
  }

  /** One step of ReplaceLeftmost: a first character that starts no token is kept. */
  lemma ReplaceLeftmostStep(s: string, p: string, v: string, i: nat, rest: string)
    requires |p| > 0 && 0 < i <= |s| && !(p <= s)
    requires ReplaceAll(s[1..], p, v) == s[1..][..i - 1] + v + rest
    ensures ReplaceAll(s, p, v) == s[..i] + v + rest
  {
    ReplaceNotAtStart(s, p, v);
    var head := s[1..][..i - 1];
    assert [s[0]] + head == s[..i];
    ConcatAssoc([s[0]], head, v, rest);
  }

  lemma ConcatAssoc(a: string, b: string, c: string, d: string)
    ensures a + (b + c + d) == a + b + c + d
  {
  }

  /**
   * The leftmost occurrence is replaced and the scan goes on behind it: this
   * and ReplaceAbsent together determine ReplaceAll completely.
   */
  lemma {:induction false} ReplaceLeftmost(s: string, p: string, v: string, i: nat)
    requires |p| > 0 && OccursAt(s, p, i)
    requires forall k :: 0 <= k < i ==> !OccursAt(s, p, k)
    ensures ReplaceAll(s, p, v) == s[..i] + v + ReplaceAll(s[i + |p|..], p, v)
    decreases i
  {
    OccursAtStart(s, p);
    if i == 0 {
      ReplaceAtStart(s, p, v);
    } else {
      NoneEarlierInTail(s, p, i);
      OccursInTail(s, p, i - 1);
      ReplaceLeftmost(s[1..], p, v, i - 1);
      assert s[1..][i - 1 + |p|..] == s[i + |p|..];
      ReplaceLeftmostStep(s, p, v, i, ReplaceAll(s[i + |p|..], p, v));
    }
  }

  /** Replacing a token by itself changes nothing. */
  lemma {:induction false} ReplaceBySelf(s: string, p: string)
    requires |p| > 0
    ensures ReplaceAll(s, p, p) == s
    decreases |s|
  {
    if |s| >= |p| {
      if s[..|p|] == p {
        ReplaceBySelf(s[|p|..], p);
        assert s == s[..|p|] + s[|p|..];
      } else {
        ReplaceBySelf(s[1..], p);
        assert s == [s[0]] + s[1..];
      }
    }
  }

  /** The text after substituting the keys of `values` one after another. */
  function Fill(text: string, values: seq<(string, string)>): string
    decreases |values|
  {
    if values == [] then text
    else Fill(ReplaceAll(text, Token(values[0].0), values[0].1), values[1..])
  }

  /** Keys are processed in order: filling with `a + b` is filling with `a`, then with `b`. */
  lemma {:induction false} FillAppend(text: string, a: seq<(string, string)>, b: seq<(string, string)>)
    ensures Fill(text, a + b) == Fill(Fill(text, a), b)
    decreases |a|
  {
    if a == [] {
      assert a + b == b;
    } else {
      assert (a + b)[1..] == a[1..] + b;
      FillAppend(ReplaceAll(text, Token(a[0].0), a[0].1), a[1..], b);
    }
  }

  /** A text holding no token of any key comes back unchanged. */
  lemma {:induction false} FillWithoutTokens(text: string, values: seq<(string, string)>)
    requires forall i :: 0 <= i < |values| ==> Absent(text, Token(values[i].0))
    ensures Fill(text, values) == text
    decreases |values|
  {
    if values != [] {
      ReplaceAbsent(text, Token(values[0].0), values[0].1);
      FillWithoutTokens(text, values[1..]);
    }
  }

  /**
   * A key whose token is absent from the text it meets can be dropped: keys
   * missing from the template are silently ignored.
   */
  lemma FillIgnoresAbsentKey(text: string, values: seq<(string, string)>, i: nat)
    requires i < |values|
    requires Absent(Fill(text, values[..i]), Token(values[i].0))
    ensures Fill(text, values) == Fill(text, values[..i] + values[i + 1..])
  {
    var before := values[..i];
    var after := values[i + 1..];
    assert values == before + ([values[i]] + after);
    FillAppend(text, before, [values[i]] + after);
    ReplaceAbsent(Fill(text, before), Token(values[i].0), values[i].1);
    FillAppend(text, before, after);
  }

  /** A text as long as the token but different from it is left as it is. */
  lemma ReplaceOtherOfSameLength(s: string, p: string, v: string)
    requires |p| > 0 && |s| == |p| && s != p
    ensures ReplaceAll(s, p, v) == s
  {
    assert s[..|p|] == s;
    assert |s[1..]| < |p|;
    assert s == [s[0]] + s[1..];
  }

  /** The first step of FillTwoTokens: only the first token matches. */
  lemma ReplaceFirstOfTwo()
    ensures ReplaceAll("{{x}}{{y}}", "{{x}}", "A") == "A{{y}}"
  {
    ReplaceAtStart("{{x}}{{y}}", "{{x}}", "A");
    assert "{{x}}{{y}}"[5..] == "{{y}}";
    assert "{{y}}"[2] != "{{x}}"[2];
    ReplaceOtherOfSameLength("{{y}}", "{{x}}", "A");
  }

  /** The second step of FillTwoTokens: the token after the inserted value matches. */
  lemma ReplaceSecondOfTwo()
    ensures ReplaceAll("A{{y}}", "{{y}}", "B") == "AB"
  {
    assert "A{{y}}"[0] != "{{y}}"[0];
    ReplaceNotAtStart("A{{y}}", "{{y}}", "B");
    assert "A{{y}}"[1..] == "{{y}}";
    ReplaceAtStart("{{y}}", "{{y}}", "B");
  }

  /** `{{x}}{{y}}` with x = "A" and y = "B" renders as "AB". */
  lemma FillTwoTokens()
    ensures Fill("{{x}}{{y}}", [("x", "A"), ("y", "B")]) == "AB"
  {
    ReplaceFirstOfTwo();
    ReplaceSecondOfTwo();
    assert Token("x") == "{{x}}" && Token("y") == "{{y}}";
    assert [("x", "A"), ("y", "B")][1..] == [("y", "B")];
  }

  /** A key made of ordinary characters: no brace. */
  predicate BraceFree(key: string) {
    '{' !in key && '}' !in key
  }

  /** The characters of an occurrence, one by one. */
  lemma OccursChars(s: string, p: string, i: int)
    requires OccursAt(s, p, i)
    ensures forall x :: 0 <= x < |p| ==> s[i + x] == p[x]
  {
    forall x | 0 <= x < |p|
      ensures s[i + x] == p[x]
    {
      assert s[i..i + |p|][x] == s[i + x];
    }
  }

  /** An occurrence in a suffix is an occurrence in the whole text, shifted. */
  lemma OccursInSuffix(s: string, p: string, d: nat, k: nat)
    requires d <= |s|
    ensures OccursAt(s[d..], p, k) <==> OccursAt(s, p, k + d)
  {
    if 0 <= k && k + d + |p| <= |s| {
      assert s[d..][k..k + |p|] == s[k + d..k + d + |p|];
    }
  }

  /** Braces occur in the token of a brace-free key only at its two ends. */
  lemma TokenBraces(k: string)
    requires BraceFree(k)
    ensures forall x :: 0 <= x < |Token(k)| ==> (Token(k)[x] == '{' <==> x < 2)
    ensures forall x :: 0 <= x < |Token(k)| ==> (Token(k)[x] == '}' <==> |k| + 2 <= x)
    ensures Token(k)[2..|k| + 2] == k
  {
    var t := Token(k);
    assert forall x :: 0 <= x < |k| ==> t[x + 2] == k[x];
    assert forall x :: 2 <= x < |k| + 2 ==> t[x] == k[x - 2];
  }

  /**
   * Where two tokens of brace-free keys occur, one starting inside the other,
   * they start at the same place and have the same key.
   */
  lemma TokenOverlap(s: string, k: string, k2: string, i: int, j: int)
    requires BraceFree(k) && BraceFree(k2)
    ensures OccursAt(s, Token(k), i) && OccursAt(s, Token(k2), j) && i <= j < i + |Token(k)| ==>
      i == j && k == k2
  {
    if OccursAt(s, Token(k), i) && OccursAt(s, Token(k2), j) && i <= j < i + |Token(k)| {
      var t, u := Token(k), Token(k2);
      OccursChars(s, t, i);
      OccursChars(s, u, j);
      TokenBraces(k);
      TokenBraces(k2);
      assert s[j] == u[0] && s[j + 1] == u[1];
      assert j == i;
      assert |k| == |k2| by {
        assert s[i + |k| + 2] == t[|k| + 2] == '}';
        assert s[i + |k2| + 2] == u[|k2| + 2] == '}';
        assert |k| + 2 < |u| ==> s[i + |k| + 2] == u[|k| + 2];
        assert |k2| + 2 < |t| ==> s[i + |k2| + 2] == t[|k2| + 2];
      }
      assert t == u by {
        assert forall x :: 0 <= x < |t| ==> t[x] == s[i + x] == u[x];
      }
    }
  }

  /** The token of one brace-free key does not occur in the token of another. */
  lemma TokenAbsentFromOther(a: string, b: string)
    requires BraceFree(a) && BraceFree(b) && a != b
    ensures Absent(Token(a), Token(b))
  {
    var t := Token(a);
    assert OccursAt(t, t, 0) by {
      assert t[0..|t|] == t;
    }
    forall j | 0 <= j <= |t|
      ensures !OccursAt(t, Token(b), j)
    {
      TokenOverlap(t, a, b, 0, j);
    }
  }

  /** Text in front of the first possible match passes through the replacement unchanged. */
  lemma {:induction false} ReplaceKeepsPrefix(m: string, b: string, p: string, v: string)
    requires |p| > 0
    requires forall j :: 0 <= j < |m| ==> !OccursAt(m + b, p, j)
    ensures ReplaceAll(m + b, p, v) == m + ReplaceAll(b, p, v)
    decreases |m|
  {
    if m == [] {
      assert m + b == b;
    } else {
      var s := m + b;
      OccursAtStart(s, p);
      ReplaceNotAtStart(s, p, v);
      assert s[1..] == m[1..] + b;
      forall j | 0 <= j < |m[1..]|
        ensures !OccursAt(m[1..] + b, p, j)
      {
        OccursInTail(s, p, j);
      }
      ReplaceKeepsPrefix(m[1..], b, p, v);
      assert m == [m[0]] + m[1..];
    }
  }

  /** No occurrence of `p` in `a + r` starts in `a` and ends in `r`. */
  predicate NoStraddle(a: string, r: string, p: string) {
    forall j :: 0 <= j < |a| < j + |p| ==> !OccursAt(a + r, p, j)
  }

  /** A cut text that starts with a match: the match lies wholly before the cut. */
  lemma SplitAtMatch(a: string, r: string, p: string, v: string)
    requires |p| > 0 && a != [] && p <= a + r && NoStraddle(a, r, p)
    ensures |p| <= |a|
    ensures ReplaceAll(a + r, p, v) == v + ReplaceAll(a[|p|..] + r, p, v)
    ensures ReplaceAll(a, p, v) == v + ReplaceAll(a[|p|..], p, v)
    ensures NoStraddle(a[|p|..], r, p)
  {
    var s := a + r;
    OccursAtStart(s, p);
    assert |p| <= |a|;
    assert a[..|p|] == s[..|p|];
    ReplaceAtStart(s, p, v);
    ReplaceAtStart(a, p, v);
    var a' := a[|p|..];
    assert s[|p|..] == a' + r;
    forall j | 0 <= j < |a'| < j + |p|
      ensures !OccursAt(a' + r, p, j)
    {
      OccursInSuffix(s, p, |p|, j);
    }
  }

  /** A cut text that does not start with a match: its first character is kept on both sides. */
  lemma SplitNotAtMatch(a: string, r: string, p: string, v: string)
    requires |p| > 0 && a != [] && !(p <= a + r) && NoStraddle(a, r, p)
    ensures ReplaceAll(a + r, p, v) == [a[0]] + ReplaceAll(a[1..] + r, p, v)
    ensures ReplaceAll(a, p, v) == [a[0]] + ReplaceAll(a[1..], p, v)
    ensures NoStraddle(a[1..], r, p)
  {
    var s := a + r;
    assert !(p <= a) by {
      if |p| <= |a| {
        assert a[..|p|] == s[..|p|];
      }
    }
    ReplaceNotAtStart(s, p, v);
    ReplaceNotAtStart(a, p, v);
    assert s[1..] == a[1..] + r;
    forall j | 0 <= j < |a[1..]| < j + |p|
      ensures !OccursAt(a[1..] + r, p, j)
    {
      OccursInTail(s, p, j);
    }
  }

  lemma ConcatAssoc3(a: string, b: string, c: string)
    ensures a + (b + c) == (a + b) + c
  {
  }

  /** Where no match straddles the cut, replacing in `a + r` is replacing in `a` and in `r`. */
  lemma {:induction false} ReplaceSplit(a: string, r: string, p: string, v: string)
    requires |p| > 0 && NoStraddle(a, r, p)
    ensures ReplaceAll(a + r, p, v) == ReplaceAll(a, p, v) + ReplaceAll(r, p, v)
    decreases |a|
  {
    if a == [] {
      assert a + r == r;
    } else if p <= a + r {
      SplitAtMatch(a, r, p, v);
      var rest := a[|p|..];
      ReplaceSplit(rest, r, p, v);
      ConcatAssoc3(v, ReplaceAll(rest, p, v), ReplaceAll(r, p, v));
    } else {
      SplitNotAtMatch(a, r, p, v);
      var rest := a[1..];
      ReplaceSplit(rest, r, p, v);
      ConcatAssoc3([a[0]], ReplaceAll(rest, p, v), ReplaceAll(r, p, v));
    }
  }

  /** An occurrence of `t` that no match of `p` overlaps comes through the replacement intact. */
  lemma ReplaceKeepsOccurrence(s: string, t: string, p: string, v: string, i: nat)
    requires |p| > 0 && OccursAt(s, t, i)
    requires forall j :: 0 <= j < i + |t| && i < j + |p| ==> !OccursAt(s, p, j)
    ensures ReplaceAll(s, p, v) == ReplaceAll(s[..i], p, v) + t + ReplaceAll(s[i + |t|..], p, v)
  {
    var a, b := s[..i], s[i + |t|..];
    assert s == a + (t + b);
    ReplaceSplit(a, t + b, p, v);
    assert s[i..] == t + b;
    forall j | 0 <= j < |t|
      ensures !OccursAt(t + b, p, j)
    {
      OccursInSuffix(s, p, i, j);
    }
    ReplaceKeepsPrefix(t, b, p, v);
  }

  /**
   * A token whose key is not among the keys stays in the text, literally:
   * with brace-free keys no other token can overlap it.
   */
  lemma {:induction false} FillKeepsUnknownToken(text: string, values: seq<(string, string)>, k: string, i: nat)
    requires BraceFree(k)
    requires forall n :: 0 <= n < |values| ==> BraceFree(values[n].0) && values[n].0 != k
    requires OccursAt(text, Token(k), i)
    ensures exists i' :: OccursAt(Fill(text, values), Token(k), i')
    decreases |values|
  {
    if values == [] {
      assert OccursAt(Fill(text, values), Token(k), i);
    } else {
      var key, value := values[0].0, values[0].1;
      var p := Token(key);
      forall j | 0 <= j < i + |Token(k)| && i < j + |p|
        ensures !OccursAt(text, p, j)
      {
        TokenOverlap(text, k, key, i, j);
        TokenOverlap(text, key, k, j, i);
      }
      ReplaceKeepsOccurrence(text, Token(k), p, value, i);
      var front := ReplaceAll(text[..i], p, value);
      var next := ReplaceAll(text, p, value);
      assert next[|front|..|front| + |Token(k)|] == Token(k);
      assert forall n :: 0 <= n < |values[1..]| ==> values[1..][n] == values[n + 1];
      FillKeepsUnknownToken(next, values[1..], k, |front|);
      assert Fill(text, values) == Fill(next, values[1..]);
    }
  }

  /**
   * The value inserted for a key is searched by every later key and by no
   * earlier one: the earlier keys were done before it arrived.
   */
  lemma FillResubstitutes(key: string, v: string, before: seq<(string, string)>, after: seq<(string, string)>)
    requires BraceFree(key)
    requires forall n :: 0 <= n < |before| ==> BraceFree(before[n].0) && before[n].0 != key
    ensures Fill(Token(key), before + [(key, v)] + after) == Fill(v, after)
  {
    var t := Token(key);
    forall n | 0 <= n < |before|
      ensures Absent(t, Token(before[n].0))
    {
      TokenAbsentFromOther(key, before[n].0);
    }
    FillWithoutTokens(t, before);
    assert before + [(key, v)] + after == before + ([(key, v)] + after);
    FillAppend(t, before, [(key, v)] + after);
    ReplaceAtStart(t, t, v);
    assert t[|t|..] == [];
    assert ReplaceAll([], t, v) == [];
    assert ReplaceAll(t, t, v) == v;
    assert ([(key, v)] + after)[0] == (key, v) && ([(key, v)] + after)[1..] == after;
    assert Fill(t, [(key, v)] + after) == Fill(v, after);
  }

  /** fillTemplate: the loop over the keys, reassigning the text each time. */
  method FillTemplate(template: string, values: seq<(string, string)>) returns (text: string)
    ensures text == Fill(template, values)
  {
    text := template;
    var i := 0;
    while i < |values|
      invariant 0 <= i <= |values|
      invariant Fill(text, values[i..]) == Fill(template, values)
    {
      assert values[i..][1..] == values[i + 1..];
      text := ReplaceAll(text, Token(values[i].0), values[i].1);
      i := i + 1;
    }
  }
}
