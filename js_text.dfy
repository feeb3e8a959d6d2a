/**
 * The two JavaScript string operations the dashboard applies to a row's
 * `metric_type`: `String.prototype.trim` and `String.prototype.toLowerCase`.
 * The functions carry no contracts of their own, so that code using them sees
 * only their definitions; what they compute is stated by the lemmas below.
 */
module JsText {

  /**
   * The code points `trim` removes: ECMAScript WhiteSpace (TAB, VT, FF, ZWNBSP
   * and every space separator, which includes SP and NBSP) and LineTerminator
   * (LF, CR, LS, PS).
   */
  predicate IsTrimmable(c: char) {
    var n := c as int;
    || n == 0x09 || n == 0x0B || n == 0x0C || n == 0xFEFF
    || n == 0x20 || n == 0xA0 || n == 0x1680 || (0x2000 <= n <= 0x200A)
    || n == 0x202F || n == 0x205F || n == 0x3000
    || n == 0x0A || n == 0x0D || n == 0x2028 || n == 0x2029
  }

  /** Every character of `s` is removed by `trim`. */
  predicate AllTrimmable(s: string) {
    forall i :: 0 <= i < |s| ==> IsTrimmable(s[i])
  }

  /** Drops the leading trimmable characters. */
  function TrimStart(s: string): string
    decreases |s|
  {
    if s != [] && IsTrimmable(s[0]) then TrimStart(s[1..]) else s
  }

  /** Drops the trailing trimmable characters. */
  function TrimEnd(s: string): string
    decreases |s|
  {
    if s != [] && IsTrimmable(s[|s| - 1]) then TrimEnd(s[..|s| - 1]) else s
  }

  /** `s.trim()`. */
  function Trim(s: string): string {
    TrimEnd(TrimStart(s))
  }

  /** `toLowerCase` on one character, restricted to the ASCII letters A-Z. */
  function LowerChar(c: char): (d: char)
    ensures !('A' <= d <= 'Z')
    ensures !('A' <= c <= 'Z') ==> d == c
    ensures 'A' <= c <= 'Z' ==> d as int == c as int + 32
  {
    if 'A' <= c <= 'Z' then (c as int + 32) as char else c
  }

  /** `s.toLowerCase()` with ASCII case mapping. */
  function ToLowerAscii(s: string): string {
    if s == [] then [] else [LowerChar(s[0])] + ToLowerAscii(s[1..])
  }

  // ---------------------------------------------------------------------------
  // What trim computes

  /** TrimStart returns the suffix that starts at the first non-trimmable character. */
  lemma {:induction false} TrimStartSpec(s: string)
    ensures var r := TrimStart(s);
            && |r| <= |s| && r == s[|s| - |r|..]
            && AllTrimmable(s[..|s| - |r|])
            && (r == [] || !IsTrimmable(r[0]))
    decreases |s|
  {
    if s != [] && IsTrimmable(s[0]) {
      TrimStartSpec(s[1..]);
      var r := TrimStart(s[1..]);
      assert s[..|s| - |r|] == [s[0]] + s[1..][..|s| - 1 - |r|];
    }
  }

  /** TrimEnd returns the prefix that ends at the last non-trimmable character. */
  lemma {:induction false} TrimEndSpec(s: string)
    ensures var r := TrimEnd(s);
            && |r| <= |s| && r == s[..|r|]
            && AllTrimmable(s[|r|..])
            && (r == [] || !IsTrimmable(r[|r| - 1]))
    decreases |s|
  {
    if s != [] && IsTrimmable(s[|s| - 1]) {
      var t := s[..|s| - 1];
      TrimEndSpec(t);
      var r := TrimEnd(t);
      assert s[|r|..] == t[|r|..] + [s[|s| - 1]];
    }
  }

  /**
   * What `trim` keeps is one contiguous piece of the input that neither starts
   * nor ends with a trimmable character, and all it cuts off is trimmable.
   */
  lemma TrimSpec(s: string)
    ensures var i, r := |s| - |TrimStart(s)|, Trim(s);
            && 0 <= i && i + |r| <= |s| && r == s[i..i + |r|]
            && AllTrimmable(s[..i]) && AllTrimmable(s[i + |r|..])
            && (r == [] || (!IsTrimmable(r[0]) && !IsTrimmable(r[|r| - 1])))
  {
    var t := TrimStart(s);
    TrimStartSpec(s);
    TrimEndSpec(t);
    var r := TrimEnd(t);
    var i := |s| - |t|;
    assert t == s[i..];
    assert r == t[..|r|];
    assert r == s[i..i + |r|];
    assert s[i + |r|..] == t[|r|..];
    assert r != [] ==> r[0] == t[0];
  }

  /** `trim` leaves alone a string that starts and ends with a character it does not remove. */
  lemma SolidBordersNotTrimmed(s: string)
    requires s != [] && !IsTrimmable(s[0]) && !IsTrimmable(s[|s| - 1])
    ensures Trim(s) == s
  {
  }

  /** A trimmable prefix is consumed entirely by TrimStart. */
  lemma {:induction false} TrimStartSkips(w: string, s: string)
    requires AllTrimmable(w)
    ensures TrimStart(w + s) == TrimStart(s)
    decreases |w|
  {
    if w == [] {
      assert w + s == s;
    } else {
      assert (w + s)[0] == w[0];
      assert (w + s)[1..] == w[1..] + s;
      TrimStartSkips(w[1..], s);
    }
  }

  /** A trimmable suffix is consumed entirely by TrimEnd. */
  lemma {:induction false} TrimEndSkips(s: string, w: string)
    requires AllTrimmable(w)
    ensures TrimEnd(s + w) == TrimEnd(s)
    decreases |w|
  {
    if w == [] {
      assert s + w == s;
    } else {
      assert (s + w)[|s + w| - 1] == w[|w| - 1];
      assert (s + w)[..|s + w| - 1] == s + w[..|w| - 1];
      TrimEndSkips(s, w[..|w| - 1]);
    }
  }

  /** TrimStart only looks at the front: a trimmable tail passes through it, up to TrimEnd. */
  lemma {:induction false} TrimStartThroughSuffix(s: string, w: string)
    requires AllTrimmable(w)
    ensures TrimEnd(TrimStart(s + w)) == TrimEnd(TrimStart(s) + w)
    decreases |s|
  {
    if s == [] {
      assert s + w == w;
      TrimStartSkips(w, []);
      assert w + [] == w;
      TrimEndSkips([], w);
      TrimEndSkips([], TrimStart(w));
      assert [] + w == w;
      assert [] + TrimStart(w) == TrimStart(w);
      TrimStartSpec(w);
      assert AllTrimmable(TrimStart(w));
    } else if IsTrimmable(s[0]) {
      assert (s + w)[1..] == s[1..] + w;
      TrimStartThroughSuffix(s[1..], w);
    } else {
      assert (s + w)[0] == s[0];
    }
  }

  /** Surrounding a string with trimmable characters does not change what `trim` returns. */
  lemma {:induction false} TrimIgnoresPadding(w1: string, s: string, w2: string)
    requires AllTrimmable(w1) && AllTrimmable(w2)
    ensures Trim(w1 + s + w2) == Trim(s)
  {
    TrimStartSkips(w1, s + w2);
    assert w1 + s + w2 == w1 + (s + w2);
    TrimStartThroughSuffix(s, w2);
    TrimEndSkips(TrimStart(s), w2);
  }

  // ---------------------------------------------------------------------------
  // What toLowerCase computes

  /** Lower-casing keeps the length and lowers each character in place. */
  lemma {:induction false} LowerSpec(s: string)
    ensures |ToLowerAscii(s)| == |s|
    ensures forall i :: 0 <= i < |s| ==> ToLowerAscii(s)[i] == LowerChar(s[i])
    decreases |s|
  {
    if s != [] {
      LowerSpec(s[1..]);
    }
  }

  /** Lower-casing twice changes nothing more than lower-casing once. */
  lemma LowerIdempotent(s: string)
    ensures ToLowerAscii(ToLowerAscii(s)) == ToLowerAscii(s)
  {
    LowerSpec(s);
    LowerSpec(ToLowerAscii(s));
  }
}
