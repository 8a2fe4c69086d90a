/**
 * Splitting a line into tokens around runs of white space, as strings.Fields
 * does with unicode.IsSpace.
 */
module Tokens {

  /** unicode.IsSpace: the Unicode White_Space property. */
  predicate IsSpace(c: char) {
    var n := c as int;
    (0x09 <= n <= 0x0D) || n == 0x20 || n == 0x85 || n == 0xA0 || n == 0x1680
    || (0x2000 <= n <= 0x200A) || n == 0x2028 || n == 0x2029 || n == 0x202F
    || n == 0x205F || n == 0x3000
  }

  predicate NoSpace(s: string) {
    forall i :: 0 <= i < |s| ==> !IsSpace(s[i])
  }

  predicate AllSpace(s: string) {
    forall i :: 0 <= i < |s| ==> IsSpace(s[i])
  }

  /** A token as strings.Fields yields one: nonempty and free of white space. */
  predicate IsToken(t: string) {
    t != [] && NoSpace(t)
  }

  /** The fields of s, given that the token being built so far is cur. */
  function FieldsFrom(s: string, cur: string): seq<string>
    decreases |s|
  {
    if s == [] then
      (if cur == [] then [] else [cur])
    else if IsSpace(s[0]) then
      (if cur == [] then [] else [cur]) + FieldsFrom(s[1..], [])
    else
      FieldsFrom(s[1..], cur + [s[0]])
  }

  /**
   * strings.Fields: the maximal runs of non-space characters. Every field is
   * a nonempty run without white space, and splitting loses nothing but
   * white space.
   */
  function Fields(s: string): (r: seq<string>)
    ensures forall k :: 0 <= k < |r| ==> IsToken(r[k])
    ensures Concat(r) == Squeeze(s)
  {
    FieldsFromTokens(s, []);
    FieldsFromKeepsText(s, []);
    FieldsFrom(s, [])
  }

  /** The text of s with all white space removed. */
  function Squeeze(s: string): string {
    if s == [] then [] else (if IsSpace(s[0]) then [] else [s[0]]) + Squeeze(s[1..])
  }

  function Concat(ts: seq<string>): string {
    if ts == [] then [] else ts[0] + Concat(ts[1..])
  }

  /**
   * The line sep[0] + ts[0] + sep[1] + ... + ts[n-1] + sep[n]: tokens laid
   * out between runs of separators.
   */
  function Layout(seps: seq<string>, ts: seq<string>): string
    requires |seps| == |ts| + 1
  {
    if ts == [] then seps[0] else seps[0] + ts[0] + Layout(seps[1..], ts[1..])
  }

  lemma {:induction false} FieldsFromTokens(s: string, cur: string)
    requires NoSpace(cur)
    ensures forall k :: 0 <= k < |FieldsFrom(s, cur)| ==> IsToken(FieldsFrom(s, cur)[k])
    decreases |s|
  {
    if s != [] {
      if IsSpace(s[0]) {
        FieldsFromTokens(s[1..], []);
      } else {
        FieldsFromTokens(s[1..], cur + [s[0]]);
      }
    }
  }

  lemma {:induction false} ConcatAppend(a: seq<string>, b: seq<string>)
    ensures Concat(a + b) == Concat(a) + Concat(b)
    decreases |a|
  {
    if a == [] {
      assert a + b == b;
    } else {
      assert (a + b)[1..] == a[1..] + b;
      ConcatAppend(a[1..], b);
      assert Concat(a + b) == a[0] + (Concat(a[1..]) + Concat(b));
    }
  }

  lemma {:induction false} FieldsFromKeepsText(s: string, cur: string)
    ensures Concat(FieldsFrom(s, cur)) == cur + Squeeze(s)
    decreases |s|
  {
    if s == [] {
    } else if IsSpace(s[0]) {
      FieldsFromKeepsText(s[1..], []);
      ConcatAppend(if cur == [] then [] else [cur], FieldsFrom(s[1..], []));
    } else {
      FieldsFromKeepsText(s[1..], cur + [s[0]]);
    }
  }

  lemma {:induction false} SkipSpaces(w: string, rest: string)
    requires AllSpace(w)
    ensures FieldsFrom(w + rest, []) == FieldsFrom(rest, [])
    decreases |w|
  {
    if w == [] {
      assert w + rest == rest;
    } else {
      assert (w + rest)[0] == w[0];
      assert (w + rest)[1..] == w[1..] + rest;
      SkipSpaces(w[1..], rest);
    }
  }

  lemma {:induction false} ReadToken(t: string, rest: string, cur: string)
    requires NoSpace(t)
    ensures FieldsFrom(t + rest, cur) == FieldsFrom(rest, cur + t)
    decreases |t|
  {
    if t == [] {
      assert t + rest == rest && cur + t == cur;
    } else {
      assert (t + rest)[0] == t[0];
      assert (t + rest)[1..] == t[1..] + rest;
      assert cur + [t[0]] + t[1..] == cur + t;
      ReadToken(t[1..], rest, cur + [t[0]]);
    }
  }

  /** Dropping the first separator character of a layout drops its first character. */
  lemma LayoutTail(seps: seq<string>, ts: seq<string>)
    requires |seps| == |ts| + 1 && seps[0] != []
    ensures Layout(seps, ts)[1..] == Layout([seps[0][1..]] + seps[1..], ts)
  {
    var seps' := [seps[0][1..]] + seps[1..];
    assert seps'[1..] == seps[1..];
    if ts != [] {
      assert Layout(seps, ts) == seps[0] + (ts[0] + Layout(seps[1..], ts[1..]));
    }
  }

  /** Trailing white space closes the token being built and adds nothing more. */
  lemma SpacesAfterToken(w: string, cur: string)
    requires AllSpace(w) && cur != []
    ensures FieldsFrom(w, cur) == [cur]
  {
    if w != [] {
      SkipSpaces(w[1..], []);
      assert w[1..] + [] == w[1..];
    }
  }

  /** Separators are white space, inner ones nonempty, and the tokens are tokens. */
  predicate WellLaidOut(seps: seq<string>, ts: seq<string>) {
    && |seps| == |ts| + 1
    && (forall k :: 0 <= k < |seps| ==> AllSpace(seps[k]))
    && (forall k :: 0 < k < |ts| ==> seps[k] != [])
    && (forall k :: 0 <= k < |ts| ==> IsToken(ts[k]))
  }

  /** A space after a token closes it. */
  lemma SpaceClosesToken(s: string, cur: string)
    requires s != [] && IsSpace(s[0]) && cur != []
    ensures FieldsFrom(s, cur) == [cur] + FieldsFrom(s[1..], [])
  {
  }

  /** Stepping past the first separator character keeps the layout well formed. */
  lemma WellLaidOutTail(seps: seq<string>, ts: seq<string>)
    requires WellLaidOut(seps, ts) && |ts| > 1
    ensures WellLaidOut([seps[1][1..]] + seps[2..], ts[1..])
  {
    var s2 := [seps[1][1..]] + seps[2..];
    forall k | 0 <= k < |s2| ensures AllSpace(s2[k]) {
      if k > 0 {
        assert s2[k] == seps[k + 1];
      }
    }
    forall k | 0 < k < |ts[1..]| ensures s2[k] != [] {
      assert s2[k] == seps[k + 1];
    }
  }

  /**
   * Splitting a line laid out from tokens and runs of white space gives back
   * exactly those tokens: the outer separators may be empty, the inner ones
   * may not.
   */
  lemma {:induction false} FieldsOfLayout(seps: seq<string>, ts: seq<string>)
    requires WellLaidOut(seps, ts)
    ensures Fields(Layout(seps, ts)) == ts
    decreases |ts|
  {
    if ts == [] {
      SkipSpaces(seps[0], []);
      assert seps[0] + [] == seps[0];
    } else {
      var rest := Layout(seps[1..], ts[1..]);
      assert Layout(seps, ts) == seps[0] + (ts[0] + rest);
      SkipSpaces(seps[0], ts[0] + rest);
      ReadToken(ts[0], rest, []);
      assert [] + ts[0] == ts[0];
      if |ts| == 1 {
        SpacesAfterToken(rest, ts[0]);
      } else {
        var s2 := [seps[1][1..]] + seps[2..];
        assert rest == seps[1] + (ts[1] + Layout(seps[2..], ts[2..]));
        assert rest[0] == seps[1][0];
        SpaceClosesToken(rest, ts[0]);
        LayoutTail(seps[1..], ts[1..]);
        assert [seps[1..][0][1..]] + seps[1..][1..] == s2;
        WellLaidOutTail(seps, ts);
        FieldsOfLayout(s2, ts[1..]);
        assert ts == [ts[0]] + ts[1..];
      }
    }
  }
}
