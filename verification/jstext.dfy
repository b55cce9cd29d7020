/** String operations of the JavaScript runtime that the master-test pipeline
    relies on: `trim`, `toLowerCase`, the `\s+` whitespace class and the
    "blank" test `!s?.trim()`. */
module JsText {

  /** The characters JavaScript's `trim()`, `\s` and `parseInt` treat as white
      space: the WhiteSpace and LineTerminator productions of ECMAScript. */
  predicate IsJsWhitespace(c: char) {
    || c == ' ' || c == '\t' || c == '\n' || c == '\r'
    || c == '\U{000B}' || c == '\U{000C}' || c == '\U{00A0}' || c == '\U{FEFF}'
    || c == '\U{1680}' || ('\U{2000}' <= c <= '\U{200A}')
    || c == '\U{2028}' || c == '\U{2029}' || c == '\U{202F}' || c == '\U{205F}'
    || c == '\U{3000}'
  }

  /** Every character of `s` is white space (vacuously true of ""). */
  predicate AllWhitespace(s: string) {
    forall k :: 0 <= k < |s| ==> IsJsWhitespace(s[k])
  }

  predicate NoWhitespace(s: string) {
    forall k :: 0 <= k < |s| ==> !IsJsWhitespace(s[k])
  }

  /** `s.trimStart()` */
  function TrimStart(s: string): (r: string)
    ensures |r| <= |s| && r == s[|s| - |r|..]
    ensures r == [] || !IsJsWhitespace(r[0])
    ensures AllWhitespace(s[..|s| - |r|])
  {
    if |s| == 0 || !IsJsWhitespace(s[0]) then s
    else
      var r := TrimStart(s[1..]);
      assert s[1..][..|s| - 1 - |r|] == s[1..|s| - |r|];
      r
  }

  /** `s.trimEnd()` */
  function TrimEnd(s: string): (r: string)
    ensures |r| <= |s| && r == s[..|r|]
    ensures r == [] || !IsJsWhitespace(r[|r| - 1])
    ensures AllWhitespace(s[|r|..])
  {
    if |s| == 0 || !IsJsWhitespace(s[|s| - 1]) then s
    else
      var r := TrimEnd(s[..|s| - 1]);
      assert s[..|s| - 1][|r|..] == s[|r|..|s| - 1];
      r
  }

  /** `s.trim()`: the result is an infix of `s` that neither starts nor ends
      with white space, and everything cut away is white space. */
  function Trim(s: string): (r: string)
    ensures |r| <= |s|
    ensures r == [] || (!IsJsWhitespace(r[0]) && !IsJsWhitespace(r[|r| - 1]))
  {
    TrimEnd(TrimStart(s))
  }

  /** JavaScript's `!s.trim()`: nothing but white space. That this is the
      same as "empty once trimmed" is `BlankIffTrimEmpty`. */
  predicate IsBlank(s: string) {
    AllWhitespace(s)
  }

  /** A string is blank exactly when trimming leaves nothing. */
  lemma BlankIffTrimEmpty(s: string)
    ensures IsBlank(s) <==> Trim(s) == []
  {
    var t := TrimStart(s);
    if AllWhitespace(s) {
      AllWhitespaceSuffix(s, |s| - |t|);
    }
    if Trim(s) == [] {
      assert t[0..] == t;
      assert t == [];
      assert s[..|s|] == s;
    }
  }

  lemma AllWhitespaceSuffix(s: string, i: nat)
    requires AllWhitespace(s) && i <= |s|
    ensures AllWhitespace(s[i..])
  {
    assert forall k :: 0 <= k < |s| - i ==> s[i..][k] == s[i + k];
  }

  /** `s.trim()` keeps one contiguous piece of `s` and cuts away only white
      space before and after it. */
  lemma TrimInfix(s: string)
    ensures exists i :: 0 <= i <= |s| - |Trim(s)| && s[i..i + |Trim(s)|] == Trim(s)
              && AllWhitespace(s[..i]) && AllWhitespace(s[i + |Trim(s)|..])
  {
    var t := TrimStart(s);
    var r := TrimEnd(t);
    var i := |s| - |t|;
    assert 0 <= i <= |s| - |r| && s[i..i + |r|] == r
           && AllWhitespace(s[..i]) && AllWhitespace(s[i + |r|..]) by {
      CutTwice(s, t, r, i);
    }
    assert r == Trim(s);
  }

  /** Cutting white space off the front of `s` and then off the back of what
      is left leaves the infix `s[i..i + |r|]`. */
  lemma CutTwice(s: string, t: string, r: string, i: nat)
    requires i + |t| == |s| && t == s[i..] && AllWhitespace(s[..i])
    requires |r| <= |t| && r == t[..|r|] && AllWhitespace(t[|r|..])
    ensures i + |r| <= |s| && s[i..i + |r|] == r
    ensures AllWhitespace(s[..i]) && AllWhitespace(s[i + |r|..])
  {
    assert t[..|r|] == s[i..i + |r|] && t[|r|..] == s[i + |r|..];
  }

  /** Trimming twice is trimming once. */
  lemma TrimIdempotent(s: string)
    ensures Trim(Trim(s)) == Trim(s)
  {
    var r := Trim(s);
    assert TrimStart(r) == r;
    assert TrimEnd(r) == r;
  }

  /** ASCII upper-case letters map to lower case; every other character is
      left as it is. */
  function LowerChar(c: char): (d: char)
    ensures IsJsWhitespace(d) <==> IsJsWhitespace(c)
    ensures !('A' <= d <= 'Z')
  {
    if 'A' <= c <= 'Z' then (c as int + 32) as char else c
  }

  /** `s.toLowerCase()`, on the ASCII range. */
  function ToLower(s: string): (r: string)
    ensures |r| == |s|
    ensures forall k :: 0 <= k < |s| ==> r[k] == LowerChar(s[k])
  {
    seq(|s|, k requires 0 <= k < |s| => LowerChar(s[k]))
  }

  /** Lower-casing is idempotent and keeps white space where it was. */
  lemma ToLowerIdempotent(s: string)
    ensures ToLower(ToLower(s)) == ToLower(s)
    ensures forall k :: 0 <= k < |s| ==> (IsJsWhitespace(ToLower(s)[k]) <==> IsJsWhitespace(s[k]))
    ensures AllWhitespace(s) <==> AllWhitespace(ToLower(s))
  {
  }

  /** `s.replace(/\s+/g, '_')`: every maximal run of white space becomes one `_`. */
  function CollapseWhitespace(s: string): (r: string)
    ensures NoWhitespace(r)
    ensures |r| <= |s|
    decreases |s|
  {
    if |s| == 0 then []
    else if IsJsWhitespace(s[0]) then "_" + CollapseWhitespace(TrimStart(s))
    else [s[0]] + CollapseWhitespace(s[1..])
  }

  /** A string without white space is left untouched by the replacement. */
  lemma {:induction false} CollapseNoWhitespace(s: string)
    requires NoWhitespace(s)
    ensures CollapseWhitespace(s) == s
  {
    if |s| > 0 {
      CollapseNoWhitespace(s[1..]);
    }
  }

  /** A non-empty run of white space alone becomes exactly one `_`. */
  lemma CollapseRun(w: string)
    requires |w| > 0 && AllWhitespace(w)
    ensures CollapseWhitespace(w) == "_"
  {
    var t := TrimStart(w);
    AllWhitespaceSuffix(w, |w| - |t|);
  }

  /** The replacement works piecewise: two strings that do not meet in the
      middle of a white-space run can be replaced separately. */
  lemma {:induction false} CollapseAppend(a: string, b: string)
    requires a == [] || b == [] || !IsJsWhitespace(a[|a| - 1]) || !IsJsWhitespace(b[0])
    ensures CollapseWhitespace(a + b) == CollapseWhitespace(a) + CollapseWhitespace(b)
    decreases |a|, 1
  {
    if a == [] {
      assert a + b == b;
    } else if b == [] {
      assert a + b == a;
    } else if IsJsWhitespace(a[0]) && TrimStart(a) == [] {
      CollapseAppendAllRun(a, b);
    } else if IsJsWhitespace(a[0]) {
      CollapseAppendRun(a, b);
    } else {
      CollapseAppendPlain(a, b);
    }
  }

  /** `CollapseAppend` when `a` starts with a character that is kept. */
  lemma {:induction false} CollapseAppendPlain(a: string, b: string)
    requires a != [] && b != [] && !IsJsWhitespace(a[0])
    requires !IsJsWhitespace(a[|a| - 1]) || !IsJsWhitespace(b[0])
    ensures CollapseWhitespace(a + b) == CollapseWhitespace(a) + CollapseWhitespace(b)
    decreases |a|, 0
  {
    var ab := a + b;
    assert ab[0] == a[0] && ab[1..] == a[1..] + b;
    assert a[1..] == [] || a[1..][|a[1..]| - 1] == a[|a| - 1];
    CollapseAppend(a[1..], b);
  }

  /** `CollapseAppend` when `a` is one run of white space: `b` then starts
      with a character that is kept. */
  lemma CollapseAppendAllRun(a: string, b: string)
    requires a != [] && b != [] && IsJsWhitespace(a[0]) && TrimStart(a) == []
    requires !IsJsWhitespace(a[|a| - 1]) || !IsJsWhitespace(b[0])
    ensures CollapseWhitespace(a + b) == CollapseWhitespace(a) + CollapseWhitespace(b)
  {
    assert AllWhitespace(a) by {
      assert a[..|a|] == a;
    }
    assert TrimStart(a + b) == b by {
      LeadingRunLength(a, b);
    }
    assert (a + b)[0] == a[0];
  }

  /** `CollapseAppend` when `a` starts with a run of white space followed by
      more of `a`. */
  lemma {:induction false} CollapseAppendRun(a: string, b: string)
    requires a != [] && b != [] && IsJsWhitespace(a[0]) && TrimStart(a) != []
    requires !IsJsWhitespace(a[|a| - 1]) || !IsJsWhitespace(b[0])
    ensures CollapseWhitespace(a + b) == CollapseWhitespace(a) + CollapseWhitespace(b)
    decreases |a|, 0
  {
    var ta := TrimStart(a);
    assert TrimStart(a + b) == ta + b by {
      TrimStartAppend(a, b);
    }
    assert CollapseWhitespace(ta + b) == CollapseWhitespace(ta) + CollapseWhitespace(b) by {
      CollapseAppend(ta, b);
    }
    assert (a + b)[0] == a[0];
  }

  /** Dropping the leading run of `a + b` when `a` is all white space and `b`
      starts with something else leaves exactly `b`. */
  lemma {:induction false} LeadingRunLength(a: string, b: string)
    requires AllWhitespace(a)
    requires b != [] && !IsJsWhitespace(b[0])
    ensures TrimStart(a + b) == b
    decreases |a|
  {
    if a != [] {
      assert (a + b)[0] == a[0];
      assert (a + b)[1..] == a[1..] + b;
      LeadingRunLength(a[1..], b);
    } else {
      assert a + b == b;
    }
  }

  /** Dropping the leading run of `a + b` when `a` has a non-space character
      stops inside `a`. */
  lemma {:induction false} TrimStartAppend(a: string, b: string)
    requires TrimStart(a) != []
    ensures TrimStart(a + b) == TrimStart(a) + b
    decreases |a|
  {
    if IsJsWhitespace(a[0]) {
      assert (a + b)[1..] == a[1..] + b;
      TrimStartAppend(a[1..], b);
    }
  }
}
