/** The two string operations that keys and one-time passwords go through. */
module Text {
  /** White space and line terminators, as `String.prototype.trim` removes them (section 22.1.3.32 of ECMA-262). */
  predicate IsSpace(c: char) {
    c in "\t\n\U{000B}\U{000C}\r \U{00A0}\U{1680}\U{2028}\U{2029}\U{202F}\U{205F}\U{3000}\U{FEFF}"
    || '\U{2000}' <= c <= '\U{200A}'
  }

  function TrimStart(s: string): string {
    if s != [] && IsSpace(s[0]) then TrimStart(s[1..]) else s
  }

  function TrimEnd(s: string): string {
    if s != [] && IsSpace(s[|s| - 1]) then TrimEnd(s[..|s| - 1]) else s
  }

  function Trim(s: string): string { TrimEnd(TrimStart(s)) }

  /** `c` with the letters a to z raised. */
  function Raised(c: char): char { if 'a' <= c <= 'z' then (c as int - 32) as char else c }

  /** `c` with the letters A to Z lowered. */
  function Lowered(c: char): char { if 'A' <= c <= 'Z' then (c as int + 32) as char else c }

  /** Upper case of the letters a to z. */
  function UpperCase(s: string): string {
    if s == [] then [] else [Raised(s[0])] + UpperCase(s[1..])
  }

  /** Lower case of the letters A to Z. */
  function LowerCase(s: string): string {
    if s == [] then [] else [Lowered(s[0])] + LowerCase(s[1..])
  }

  lemma {:induction false} UpperCaseAt(s: string)
    ensures |UpperCase(s)| == |s| && forall i | 0 <= i < |s| :: UpperCase(s)[i] == Raised(s[i])
  {
    if s != [] {
      UpperCaseAt(s[1..]);
    }
  }

  lemma {:induction false} LowerCaseAt(s: string)
    ensures |LowerCase(s)| == |s| && forall i | 0 <= i < |s| :: LowerCase(s)[i] == Lowered(s[i])
  {
    if s != [] {
      LowerCaseAt(s[1..]);
    }
  }

  lemma {:induction false} LowerCaseKeeps(s: string)
    requires forall i | 0 <= i < |s| :: !('A' <= s[i] <= 'Z')
    ensures LowerCase(s) == s
  {
    if s != [] {
      LowerCaseKeeps(s[1..]);
    }
  }

  lemma {:induction false} LowerCaseAppend(s: string, c: char)
    ensures LowerCase(s + [c]) == LowerCase(s) + LowerCase([c])
  {
    if s == [] {
      assert s + [c] == [c];
    } else {
      assert (s + [c])[1..] == s[1..] + [c];
      LowerCaseAppend(s[1..], c);
    }
  }

  predicate Trimmed(s: string) { s != [] ==> !IsSpace(s[0]) && !IsSpace(s[|s| - 1]) }

  predicate Blank(s: string) { forall i | 0 <= i < |s| :: IsSpace(s[i]) }

  lemma {:induction false} TrimStartSplits(s: string)
    ensures var n := |s| - |TrimStart(s)|; n >= 0 && s[n..] == TrimStart(s) && Blank(s[..n])
    ensures TrimStart(s) != [] ==> !IsSpace(TrimStart(s)[0])
  {
    hide IsSpace;
    if s != [] && IsSpace(s[0]) {
      TrimStartSplits(s[1..]);
      var n := |s| - |TrimStart(s)|;
      assert s[..n] == [s[0]] + s[1..][..n - 1];
    }
  }

  lemma {:induction false} TrimEndSplits(s: string)
    ensures var n := |TrimEnd(s)|; n <= |s| && s[..n] == TrimEnd(s) && Blank(s[n..])
    ensures TrimEnd(s) != [] ==> !IsSpace(TrimEnd(s)[|TrimEnd(s)| - 1])
  {
    hide IsSpace;
    if s != [] && IsSpace(s[|s| - 1]) {
      TrimEndSplits(s[..|s| - 1]);
      var n := |TrimEnd(s)|;
      assert s[n..] == s[..|s| - 1][n..] + [s[|s| - 1]];
    }
  }

  /** Trimming removes white space at both ends, and nothing else. */
  lemma TrimSplits(s: string)
    ensures Trimmed(Trim(s))
    ensures var i := |s| - |TrimStart(s)|;
            && 0 <= i && i + |Trim(s)| <= |s| && Trim(s) == s[i..i + |Trim(s)|]
            && Blank(s[..i]) && Blank(s[i + |Trim(s)|..])
  {
    hide IsSpace, TrimStart, TrimEnd;
    TrimStartSplits(s);
    TrimEndSplits(TrimStart(s));
    var i := |s| - |TrimStart(s)|;
    assert s[i + |Trim(s)|..] == s[i..][|Trim(s)|..];
  }

  lemma {:induction false} TrimStartAppend(s: string, c: char)
    requires IsSpace(c)
    ensures TrimStart(s + [c]) == if TrimStart(s) == [] then [] else TrimStart(s) + [c]
  {
    hide IsSpace;
    if s != [] && IsSpace(s[0]) {
      assert (s + [c])[1..] == s[1..] + [c];
      TrimStartAppend(s[1..], c);
    } else if s == [] {
      assert s + [c] == [c] && [c][1..] == [];
    }
  }

  /** White space around a string makes no difference to its trimmed form. */
  lemma {:induction false} TrimIgnoresBlanks(a: string, s: string, b: string)
    requires Blank(a) && Blank(b)
    ensures Trim(a + s + b) == Trim(s)
    decreases |a| + |b|
  {
    hide IsSpace;
    if a != [] {
      assert (a + s + b)[1..] == a[1..] + s + b;
      TrimIgnoresBlanks(a[1..], s, b);
    } else if b != [] {
      var last := |b| - 1;
      assert a + s + b == (a + s + b[..last]) + [b[last]];
      TrimStartAppend(a + s + b[..last], b[last]);
      var x := TrimStart(a + s + b[..last]);
      assert (x + [b[last]])[..|x|] == x;
      TrimIgnoresBlanks(a, s, b[..last]);
    } else {
      assert a + s + b == s;
    }
  }

  lemma TrimmedStays(k: string)
    requires Trimmed(k)
    ensures Trim(k) == k
  {
  }

  /** `s` is `k` with white space around it. */
  ghost predicate Pads(s: string, k: string) {
    exists a, b :: Blank(a) && Blank(b) && s == a + k + b
  }

  /** A string has exactly one trimmed form. */
  lemma TrimIsThePadded(s: string, k: string)
    requires Trimmed(k)
    ensures Trim(s) == k <==> Pads(s, k)
  {
    hide IsSpace;
    if Pads(s, k) {
      var a, b :| Blank(a) && Blank(b) && s == a + k + b;
      TrimIgnoresBlanks(a, k, b);
      TrimmedStays(k);
    }
    if Trim(s) == k {
      hide Trim, TrimStart, Blank;
      TrimSplits(s);
      var i := |s| - |TrimStart(s)|;
      assert s == s[..i] + k + s[i + |k|..];
    }
  }

  /** Nothing is left of a blank string, and of no other. */
  lemma TrimEmptyExactly(s: string)
    ensures Trim(s) == "" <==> Blank(s)
  {
    hide IsSpace;
    TrimIsThePadded(s, "");
    if Blank(s) {
      assert Blank("") && s == s + "" + "";
      assert Pads(s, "");
    }
  }
}
