/** String handling the services apply to their inputs before storing or comparing them. */
module Text {

  /** White space as `strings.TrimSpace` understands it. */
  predicate IsSpace(c: char) {
    || '\t' <= c <= '\r' || c == ' ' || c == '\U{85}' || c == '\U{A0}' || c == '\U{1680}'
    || '\U{2000}' <= c <= '\U{200A}' || c == '\U{2028}' || c == '\U{2029}' || c == '\U{202F}'
    || c == '\U{205F}' || c == '\U{3000}'
  }

  function TrimLeft(s: string): string {
    if s != "" && IsSpace(s[0]) then TrimLeft(s[1..]) else s
  }

  function TrimRight(s: string): string {
    if s != "" && IsSpace(s[|s| - 1]) then TrimRight(s[..|s| - 1]) else s
  }

  function Trim(s: string): string {
    TrimRight(TrimLeft(s))
  }

  predicate IsBlank(s: string) {
    Trim(s) == ""
  }

  function UpperChar(c: char): char {
    if 'a' <= c <= 'z' then (c as int - 32) as char else c
  }

  function Mapped(up: char -> char, s: string): string {
    seq(|s|, i requires 0 <= i < |s| => up(s[i]))
  }

  /** Trimmed, then upper-cased character by character. */
  function CodeWith(up: char -> char, s: string): string {
    Mapped(up, Trim(s))
  }

  /** The canonical form under which codes are stored. */
  function CodeOf(s: string): string {
    CodeWith(UpperChar, s)
  }

  predicate IsTrimmed(s: string) {
    s == "" || (!IsSpace(s[0]) && !IsSpace(s[|s| - 1]))
  }

  lemma {:induction false} TrimLeftStartsClean(s: string)
    ensures TrimLeft(s) == "" || !IsSpace(TrimLeft(s)[0])
  {
    if s != "" && IsSpace(s[0]) {
      TrimLeftStartsClean(s[1..]);
    }
  }

  lemma {:induction false} TrimRightEndsClean(s: string)
    ensures var t := TrimRight(s); t <= s && (t == "" || !IsSpace(t[|t| - 1]))
  {
    if s != "" && IsSpace(s[|s| - 1]) {
      TrimRightEndsClean(s[..|s| - 1]);
    }
  }

  lemma TrimIsTrimmed(s: string)
    ensures IsTrimmed(Trim(s))
  {
    TrimLeftStartsClean(s);
    TrimRightEndsClean(TrimLeft(s));
  }

  lemma TrimIsIdempotent(s: string)
    ensures Trim(Trim(s)) == Trim(s)
  {
    TrimIsTrimmed(s);
  }

  /** Upper-case letters are left alone, and nothing is mapped to white space. */
  ghost predicate IsCaseMapping(up: char -> char) {
    forall c :: up(up(c)) == up(c) && (IsSpace(up(c)) ==> IsSpace(c))
  }

  lemma CodesAreTrimmed(up: char -> char, s: string)
    requires IsCaseMapping(up)
    ensures Trim(CodeWith(up, s)) == CodeWith(up, s)
  {
    TrimIsTrimmed(s);
    assert IsTrimmed(CodeWith(up, s));
  }

  /**
   Codes are fixed points of the canonical form: storing a stored code again changes nothing,
   under any case mapping.
   */
  lemma CodeWithIsIdempotent(up: char -> char, s: string)
    requires IsCaseMapping(up)
    ensures CodeWith(up, CodeWith(up, s)) == CodeWith(up, s)
  {
    CodesAreTrimmed(up, s);
    assert Mapped(up, CodeWith(up, s)) == CodeWith(up, s);
  }

  lemma CodeOfIsIdempotent(s: string)
    ensures CodeOf(CodeOf(s)) == CodeOf(s)
  {
    CodeWithIsIdempotent(UpperChar, s);
  }

  // ---- What trimming and codes are, without the loops that compute them ----

  /** The code points of white space: six of ASCII, and the others of the Unicode property. */
  const SPACES: set<int> :=
    {9, 10, 11, 12, 13, 32, 0x85, 0xA0, 0x1680, 0x2000, 0x2001, 0x2002, 0x2003, 0x2004, 0x2005, 0x2006,
     0x2007, 0x2008, 0x2009, 0x200A, 0x2028, 0x2029, 0x202F, 0x205F, 0x3000}

  predicate AllSpace(s: string) {
    forall i :: 0 <= i < |s| ==> s[i] as int in SPACES
  }

  /** `t` is what is left of `s` without its outer white space. */
  ghost predicate IsTrimOf(t: string, s: string) {
    && (t != "" ==> t[0] as int !in SPACES && t[|t| - 1] as int !in SPACES)
    && exists a: string, b: string :: s == a + t + b && AllSpace(a) && AllSpace(b)
  }

  lemma SpaceExactlyWhen(c: char)
    ensures IsSpace(c) <==> c as int in SPACES
  {
  }

  lemma {:induction false} TrimLeftStrips(s: string) returns (a: string)
    ensures s == a + TrimLeft(s) && AllSpace(a)
  {
    if s != "" && IsSpace(s[0]) {
      SpaceExactlyWhen(s[0]);
      a := TrimLeftStrips(s[1..]);
      a := [s[0]] + a;
    } else {
      a := "";
    }
  }

  lemma {:induction false} TrimRightStrips(s: string) returns (b: string)
    ensures s == TrimRight(s) + b && AllSpace(b)
  {
    if s != "" && IsSpace(s[|s| - 1]) {
      SpaceExactlyWhen(s[|s| - 1]);
      b := TrimRightStrips(s[..|s| - 1]);
      b := b + [s[|s| - 1]];
      assert s == s[..|s| - 1] + [s[|s| - 1]];
    } else {
      b := "";
    }
  }

  /** Trimming takes white space off both ends, all of it and nothing else. */
  lemma TrimStrips(s: string)
    ensures IsTrimOf(Trim(s), s)
  {
    hide SPACES, AllSpace;
    var t := Trim(s);
    var a := TrimLeftStrips(s);
    var b := TrimRightStrips(TrimLeft(s));
    assert s == a + t + b;
    TrimIsTrimmed(s);
    if t != "" {
      SpaceExactlyWhen(t[0]);
      SpaceExactlyWhen(t[|t| - 1]);
    }
  }

  lemma {:induction false} TrimLeftOf(a: string, s: string)
    requires AllSpace(a) && (s == "" || s[0] as int !in SPACES)
    ensures TrimLeft(a + s) == s
  {
    if a == "" {
      assert a + s == s;
      if s != "" {
        SpaceExactlyWhen(s[0]);
      }
    } else {
      SpaceExactlyWhen(a[0]);
      assert (a + s)[1..] == a[1..] + s;
      TrimLeftOf(a[1..], s);
    }
  }

  lemma {:induction false} TrimRightOf(s: string, b: string)
    requires AllSpace(b) && (s == "" || s[|s| - 1] as int !in SPACES)
    ensures TrimRight(s + b) == s
  {
    if b == "" {
      assert s + b == s;
      if s != "" {
        SpaceExactlyWhen(s[|s| - 1]);
      }
    } else {
      var n := |b| - 1;
      SpaceExactlyWhen(b[n]);
      assert (s + b)[..|s + b| - 1] == s + b[..n];
      TrimRightOf(s, b[..n]);
    }
  }

  /** There is one such text. */
  lemma TrimIsUnique(t: string, s: string)
    requires IsTrimOf(t, s)
    ensures t == Trim(s)
  {
    hide SPACES, AllSpace;
    var a: string, b: string :| s == a + t + b && AllSpace(a) && AllSpace(b);
    if t == "" {
      NothingIsLeft(a, b);
    } else {
      assert s == a + (t + b);
      TrimLeftOf(a, t + b);
      TrimRightOf(t, b);
    }
  }

  lemma NothingIsLeft(a: string, b: string)
    requires AllSpace(a) && AllSpace(b)
    ensures Trim(a + "" + b) == ""
  {
    assert a + "" + b == (a + b) + "";
    TrimLeftOf(a + b, "");
  }

  /** A text is blank exactly when it is white space throughout. */
  lemma BlankExactlyWhen(s: string)
    ensures IsBlank(s) <==> AllSpace(s)
  {
    hide SPACES, Trim;
    TrimStrips(s);
    if AllSpace(s) {
      assert s == s + "" + "" && AllSpace("");
      assert IsTrimOf("", s);
      TrimIsUnique("", s);
    }
    if IsBlank(s) {
      var a: string, b: string :| s == a + "" + b && AllSpace(a) && AllSpace(b);
      assert s == a + b;
    }
  }

  /** `c` is `t` with each ASCII letter in upper case: the code point 32 below. */
  predicate IsUpperOf(c: string, t: string) {
    && |c| == |t|
    && forall i :: 0 <= i < |t| ==>
         c[i] as int == if 97 <= t[i] as int <= 122 then t[i] as int - 32 else t[i] as int
  }

  /** `c` is the code stored for the text `s`. */
  ghost predicate IsCodeOf(c: string, s: string) {
    exists t: string :: IsTrimOf(t, s) && IsUpperOf(c, t)
  }

  lemma UpperExactly(c: char)
    ensures UpperChar(c) as int == if 97 <= c as int <= 122 then c as int - 32 else c as int
  {
  }

  lemma MappedIsUpper(t: string)
    ensures IsUpperOf(Mapped(UpperChar, t), t)
  {
    hide UpperChar;
    forall i | 0 <= i < |t|
      ensures Mapped(UpperChar, t)[i] as int == if 97 <= t[i] as int <= 122 then t[i] as int - 32 else t[i] as int
    {
      UpperExactly(t[i]);
    }
  }

  lemma UpperIsUnique(c: string, t: string)
    requires IsUpperOf(c, t)
    ensures c == Mapped(UpperChar, t)
  {
    MappedIsUpper(t);
    forall i | 0 <= i < |t| ensures c[i] == Mapped(UpperChar, t)[i] {
    }
  }

  lemma CodeIsStrippedAndUpper(s: string)
    ensures IsCodeOf(CodeOf(s), s)
  {
    hide Trim, SPACES;
    TrimStrips(s);
    MappedIsUpper(Trim(s));
  }

  lemma CodeIsUnique(c: string, s: string)
    requires IsCodeOf(c, s)
    ensures c == CodeOf(s)
  {
    hide Trim, SPACES;
    var t: string :| IsTrimOf(t, s) && IsUpperOf(c, t);
    TrimIsUnique(t, s);
    UpperIsUnique(c, t);
  }

  /** A stored code: no outer white space, no lower-case ASCII letter. */
  predicate IsCanonical(c: string) {
    && (c != "" ==> c[0] as int !in SPACES && c[|c| - 1] as int !in SPACES)
    && forall i :: 0 <= i < |c| ==> !(97 <= c[i] as int <= 122)
  }

  lemma CodesAreCanonical(s: string)
    ensures IsCanonical(CodeOf(s))
  {
    CodeIsStrippedAndUpper(s);
    var t: string :| IsTrimOf(t, s) && IsUpperOf(CodeOf(s), t);
    assert IsUpperOf(CodeOf(s), t);
  }

  // ---- When two texts share a code ----

  /** The same character, or the same ASCII letter in the other case. */
  predicate SameLetter(a: char, b: char) {
    || a == b
    || (97 <= a as int <= 122 && b as int == a as int - 32)
    || (97 <= b as int <= 122 && a as int == b as int - 32)
  }

  /** Two texts that differ in outer white space and in the case of ASCII letters only. */
  ghost predicate SameButCase(a: string, b: string) {
    exists t: string, u: string ::
      IsTrimOf(t, a) && IsTrimOf(u, b) && |t| == |u| && forall i :: 0 <= i < |t| ==> SameLetter(t[i], u[i])
  }

  lemma UpperAgreesExactlyWhen(a: char, b: char)
    ensures UpperChar(a) == UpperChar(b) <==> SameLetter(a, b)
  {
  }

  lemma MappedAgreesExactlyWhen(t: string, u: string)
    ensures Mapped(UpperChar, t) == Mapped(UpperChar, u)
       <==> |t| == |u| && forall i :: 0 <= i < |t| ==> SameLetter(t[i], u[i])
  {
    hide UpperChar, SameLetter;
    var c, d := Mapped(UpperChar, t), Mapped(UpperChar, u);
    if |t| == |u| {
      forall i | 0 <= i < |t| ensures c[i] == d[i] <==> SameLetter(t[i], u[i]) {
        UpperAgreesExactlyWhen(t[i], u[i]);
      }
    }
    assert |c| == |t| && |d| == |u|;
  }

  /** The unique code index tells two texts apart exactly unless they differ in nothing more. */
  lemma CodesCollideExactlyWhen(a: string, b: string)
    ensures CodeOf(a) == CodeOf(b) <==> SameButCase(a, b)
  {
    hide Trim, IsTrimOf, Mapped, SameLetter;
    TrimStrips(a);
    TrimStrips(b);
    MappedAgreesExactlyWhen(Trim(a), Trim(b));
    if t: string, u: string :| IsTrimOf(t, a) && IsTrimOf(u, b) && |t| == |u|
                               && forall i :: 0 <= i < |t| ==> SameLetter(t[i], u[i]) {
      TrimIsUnique(t, a);
      TrimIsUnique(u, b);
    }
  }
}
