/**
 * The JavaScript string operations the request handlers apply to user input:
 * `String.prototype.trim`, `String.prototype.toLowerCase` and the UTF-16 `length`.
 * Strings are sequences of Unicode scalar values.
 */
module Text {

  /** The characters `trim` strips: WhiteSpace and LineTerminator of ECMA-262 (sections 12.2 and 12.3). */
  predicate IsSpace(c: char) {
    var n := c as int;
    n == 0x09 || n == 0x0A || n == 0x0B || n == 0x0C || n == 0x0D || n == 0x20 || n == 0xA0 ||
    n == 0x1680 || (0x2000 <= n <= 0x200A) || n == 0x2028 || n == 0x2029 || n == 0x202F ||
    n == 0x205F || n == 0x3000 || n == 0xFEFF
  }

  predicate AllSpace(s: string) {
    forall i :: 0 <= i < |s| ==> IsSpace(s[i])
  }

  /** Neither end of `s` is white space. */
  predicate Trimmed(s: string) {
    s == [] || (!IsSpace(s[0]) && !IsSpace(s[|s| - 1]))
  }

  /** Drops the leading white space: what is left is a suffix, what was dropped is all white space. */
  function TrimStart(s: string): (r: string)
    ensures |r| <= |s| && r == s[|s| - |r|..]
    ensures AllSpace(s[..|s| - |r|])
    ensures r == [] || !IsSpace(r[0])
  {
    if |s| > 0 && IsSpace(s[0]) then
      var r := TrimStart(s[1..]);
      TrimStartStep(s, r);
      r
    else s
  }

  /** Drops the trailing white space: what is left is a prefix, what was dropped is all white space. */
  function TrimEnd(s: string): (r: string)
    ensures |r| <= |s| && r == s[..|r|]
    ensures AllSpace(s[|r|..])
    ensures r == [] || !IsSpace(r[|r| - 1])
  {
    if |s| > 0 && IsSpace(s[|s| - 1]) then
      var r := TrimEnd(s[..|s| - 1]);
      TrimEndStep(s, r);
      r
    else s
  }

  /** One step of `TrimStart`: dropping a leading white-space character keeps its postcondition. */
  lemma TrimStartStep(s: string, r: string)
    requires |s| > 0 && IsSpace(s[0])
    requires |r| <= |s[1..]| && r == s[1..][|s[1..]| - |r|..] && AllSpace(s[1..][..|s[1..]| - |r|])
    ensures |r| <= |s| && r == s[|s| - |r|..] && AllSpace(s[..|s| - |r|])
  {
    var k := |s| - 1 - |r|;
    assert s[1..][k..] == s[k + 1..];
    assert s[..k + 1] == [s[0]] + s[1..][..k];
    AllSpaceOfConcat([s[0]], s[1..][..k]);
  }

  /** One step of `TrimEnd`: dropping a trailing white-space character keeps its postcondition. */
  lemma TrimEndStep(s: string, r: string)
    requires |s| > 0 && IsSpace(s[|s| - 1])
    requires |r| <= |s[..|s| - 1]| && r == s[..|s| - 1][..|r|] && AllSpace(s[..|s| - 1][|r|..])
    ensures |r| <= |s| && r == s[..|r|] && AllSpace(s[|r|..])
  {
    assert s[..|s| - 1][..|r|] == s[..|r|];
    assert s[|r|..] == s[..|s| - 1][|r|..] + [s[|s| - 1]];
    AllSpaceOfConcat(s[..|s| - 1][|r|..], [s[|s| - 1]]);
  }

  /** `String.prototype.trim`: the input with white space removed from both ends. */
  function Trim(s: string): (r: string)
    ensures Trimmed(r)
    ensures r == [] <==> AllSpace(s)
  {
    var t := TrimStart(s);
    var r := TrimEnd(t);
    TrimOfParts(s, t, r);
    r
  }

  /** What `Trim` needs from its two halves, stated as their postconditions. */
  lemma TrimOfParts(s: string, t: string, r: string)
    requires |t| <= |s| && t == s[|s| - |t|..] && AllSpace(s[..|s| - |t|]) && (t == [] || !IsSpace(t[0]))
    requires |r| <= |t| && r == t[..|r|] && AllSpace(t[|r|..]) && (r == [] || !IsSpace(r[|r| - 1]))
    ensures Trimmed(r)
    ensures r == [] <==> AllSpace(s)
  {
    assert s == s[..|s| - |t|] + t;
    AllSpaceOfConcat(s[..|s| - |t|], t);
    assert t == r + t[|r|..];
    AllSpaceOfConcat(r, t[|r|..]);
    if r != [] {
      assert r[0] == t[0];
    }
  }

  /** A concatenation is all white space exactly when both parts are. */
  lemma AllSpaceOfConcat(a: string, b: string)
    ensures AllSpace(a + b) <==> AllSpace(a) && AllSpace(b)
  {
    if AllSpace(a + b) {
      forall i | 0 <= i < |a| ensures IsSpace(a[i]) {
        assert a[i] == (a + b)[i];
      }
      forall i | 0 <= i < |b| ensures IsSpace(b[i]) {
        assert b[i] == (a + b)[|a| + i];
      }
    } else if AllSpace(a) && AllSpace(b) {
      forall i | 0 <= i < |a + b| ensures IsSpace((a + b)[i]) {
        if i < |a| {
          assert (a + b)[i] == a[i];
        } else {
          assert (a + b)[i] == b[i - |a|];
        }
      }
      assert false;
    }
  }

  /** The letters `toLowerCase` maps one-to-one within Basic Latin and Latin-1: A-Z and the Latin-1 capitals. */
  predicate IsUpper(c: char) {
    ('A' <= c <= 'Z') || (0xC0 <= c as int <= 0xDE && c as int != 0xD7)
  }

  function LowerChar(c: char): (d: char)
    ensures !IsUpper(d)
    ensures IsSpace(d) <==> IsSpace(c)
    ensures !IsUpper(c) ==> d == c
    ensures IsUpper(c) ==> d as int == c as int + 0x20
  {
    if IsUpper(c) then (c as int + 0x20) as char else c
  }

  /** `String.prototype.toLowerCase`, character by character. */
  function LowerCase(s: string): (r: string)
    ensures |r| == |s|
    ensures forall i :: 0 <= i < |s| ==> !IsUpper(r[i]) && (IsSpace(r[i]) <==> IsSpace(s[i]))
    ensures (forall i :: 0 <= i < |s| ==> !IsUpper(s[i])) ==> r == s
  {
    seq(|s|, i requires 0 <= i < |s| => LowerChar(s[i]))
  }

  /** Lower-casing keeps a trimmed string trimmed. */
  lemma LowerCaseKeepsTrimmed(s: string)
    requires Trimmed(s)
    ensures Trimmed(LowerCase(s))
  {
    var r := LowerCase(s);
    if s != [] {
      assert IsSpace(r[0]) <==> IsSpace(s[0]);
      assert IsSpace(r[|r| - 1]) <==> IsSpace(s[|s| - 1]);
    }
  }

  lemma LowerCaseIdempotent(s: string)
    ensures LowerCase(LowerCase(s)) == LowerCase(s)
  {
  }

  lemma {:induction false} LowerCaseCommutesWithTrimStart(s: string)
    ensures TrimStart(LowerCase(s)) == LowerCase(TrimStart(s))
  {
    var l := LowerCase(s);
    if |s| > 0 {
      assert l[0] == LowerChar(s[0]);
      if IsSpace(s[0]) {
        assert l[1..] == LowerCase(s[1..]);
        LowerCaseCommutesWithTrimStart(s[1..]);
        assert TrimStart(l) == TrimStart(l[1..]);
      } else {
        assert TrimStart(l) == l;
      }
    }
  }

  lemma {:induction false} LowerCaseCommutesWithTrimEnd(s: string)
    ensures TrimEnd(LowerCase(s)) == LowerCase(TrimEnd(s))
  {
    if |s| > 0 {
      var init := s[..|s| - 1];
      LowerCaseOfInit(s);
      if IsSpace(s[|s| - 1]) {
        LowerCaseCommutesWithTrimEnd(init);
      }
    }
  }

  lemma LowerCaseOfInit(s: string)
    requires |s| > 0
    ensures LowerCase(s)[..|s| - 1] == LowerCase(s[..|s| - 1])
    ensures LowerCase(s)[|s| - 1] == LowerChar(s[|s| - 1])
  {
  }

  /** Lower-casing never moves the trim boundaries: the two operations commute. */
  lemma LowerCaseCommutesWithTrim(s: string)
    ensures Trim(LowerCase(s)) == LowerCase(Trim(s))
  {
    LowerCaseCommutesWithTrimStart(s);
    LowerCaseCommutesWithTrimEnd(TrimStart(s));
  }

  /** A string with no white space at either end is left alone by `trim`. */
  lemma TrimFixesTrimmed(s: string)
    requires Trimmed(s)
    ensures Trim(s) == s
  {
  }

  /** `trim` returns the one white-space-free core: whatever pads a trimmed string is stripped off it exactly. */
  lemma TrimFindsCore(pre: string, core: string, post: string)
    requires AllSpace(pre) && AllSpace(post) && Trimmed(core)
    ensures Trim(pre + core + post) == core
  {
    TrimIgnoresPadding(pre, core, post);
    TrimFixesTrimmed(core);
  }

  lemma TrimIdempotent(s: string)
    ensures Trim(Trim(s)) == Trim(s)
  {
    TrimFixesTrimmed(Trim(s));
  }

  /** White space added at either end does not change the trimmed string. */
  lemma {:induction false} TrimIgnoresPadding(pre: string, s: string, post: string)
    requires AllSpace(pre) && AllSpace(post)
    ensures Trim(pre + s + post) == Trim(s)
  {
    assert pre + s + post == pre + (s + post);
    TrimStartIgnoresPadding(pre, s + post);
    TrimStartOfAppend(s, post);
    var t := TrimStart(s);
    if TrimStart(s + post) == t + post {
      TrimEndIgnoresPadding(t, post);
    }
    TrimIsTrimEndOfTrimStart(pre + s + post);
    TrimIsTrimEndOfTrimStart(s);
  }

  lemma TrimIsTrimEndOfTrimStart(s: string)
    ensures Trim(s) == TrimEnd(TrimStart(s))
  {
  }

  lemma {:induction false} TrimStartIgnoresPadding(pre: string, s: string)
    requires AllSpace(pre)
    ensures TrimStart(pre + s) == TrimStart(s)
  {
    if pre != [] {
      assert (pre + s)[0] == pre[0];
      assert (pre + s)[1..] == pre[1..] + s;
      TrimStartIgnoresPadding(pre[1..], s);
    } else {
      assert pre + s == s;
    }
  }

  /** Trimming the front of `s + post` only looks at `post` when `s` is all white space. */
  lemma {:induction false} TrimStartOfAppend(s: string, post: string)
    requires AllSpace(post)
    ensures TrimStart(s + post) == TrimStart(s) + post || (TrimStart(s) == [] && TrimStart(s + post) == [])
  {
    if s != [] && IsSpace(s[0]) {
      assert (s + post)[1..] == s[1..] + post;
      TrimStartOfAppend(s[1..], post);
    } else if s == [] {
      TrimStartIgnoresPadding(post, []);
      assert post + [] == post;
    }
  }

  lemma {:induction false} TrimEndIgnoresPadding(s: string, post: string)
    requires AllSpace(post)
    ensures TrimEnd(s + post) == TrimEnd(s)
  {
    if post != [] {
      assert (s + post)[..|s + post| - 1] == s + post[..|post| - 1];
      TrimEndIgnoresPadding(s, post[..|post| - 1]);
    } else {
      assert s + post == s;
    }
  }

  /** JavaScript's `length`: the number of UTF-16 code units, two for a character outside the Basic Multilingual Plane. */
  function Utf16Length(s: string): (n: nat)
    ensures |s| <= n <= 2 * |s|
    ensures n == |s| <==> forall i :: 0 <= i < |s| ==> s[i] as int < 0x10000
  {
    if s == [] then 0 else (if s[0] as int < 0x10000 then 1 else 2) + Utf16Length(s[1..])
  }

  /** The UTF-16 length of a concatenation is the sum of the lengths of its parts. */
  lemma {:induction false} Utf16LengthOfConcat(a: string, b: string)
    ensures Utf16Length(a + b) == Utf16Length(a) + Utf16Length(b)
  {
    if a != [] {
      assert (a + b)[0] == a[0];
      assert (a + b)[1..] == a[1..] + b;
      Utf16LengthOfConcat(a[1..], b);
    } else {
      assert a + b == b;
    }
  }
}
