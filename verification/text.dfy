/** The JavaScript string primitives the forms rely on: `trim`, `toLowerCase`,
    `includes` and `length`, stated over Dafny strings (sequences of Unicode
    scalar values).
 */
module Text {

  /** The characters `String.prototype.trim` removes: the ECMAScript
      WhiteSpace set (TAB, VT, FF, ZWNBSP and every Zs space separator) and the
      LineTerminator set (LF, CR, LS, PS). */
  predicate IsSpace(c: char) {
    || c == '\t' || c == '\U{000B}' || c == '\U{000C}' || c == '\U{FEFF}'
    || c == ' ' || c == '\U{00A0}' || c == '\U{1680}'
    || ('\U{2000}' <= c <= '\U{200A}')
    || c == '\U{202F}' || c == '\U{205F}' || c == '\U{3000}'
    || c == '\n' || c == '\r' || c == '\U{2028}' || c == '\U{2029}'
  }

  /** Every character of `s` is removed by `trim`. This is the quantified
      form the proofs about slices use; `IsBlank` is the same notion written
      as a recursion over the string, and `BlankIsAllSpace` proves the two
      agree. */
  ghost predicate AllSpace(s: string) {
    forall k :: 0 <= k < |s| ==> IsSpace(s[k])
  }

  /** `trimStart`: the longest suffix of `s` that does not start with a space. */
  function TrimStart(s: string): (r: string)
    ensures |r| <= |s| && r == s[|s| - |r|..]
    ensures AllSpace(s[..|s| - |r|])
    ensures |r| > 0 ==> !IsSpace(r[0])
  {
    if |s| > 0 && IsSpace(s[0]) then TrimStart(s[1..]) else s
  }

  /** `trimEnd`: the longest prefix of `s` that does not end with a space. */
  function TrimEnd(s: string): (r: string)
    ensures |r| <= |s| && r == s[..|r|]
    ensures AllSpace(s[|r|..])
    ensures |r| > 0 ==> !IsSpace(r[|r| - 1])
  {
    if |s| > 0 && IsSpace(s[|s| - 1]) then TrimEnd(s[..|s| - 1]) else s
  }

  /** `r` is the slice of `s` at `i`, and everything before and after that
      slice is removed by `trim`. */
  ghost predicate Strips(s: string, r: string, i: int) {
    OccursAt(s, r, i) && AllSpace(s[..i]) && AllSpace(s[i + |r|..])
  }

  /** `trim`: `s` with its leading and trailing spaces removed. The result is
      a slice of `s` with only spaces around it, it is empty exactly when `s`
      is all spaces, and otherwise it starts and ends with a non-space. */
  function Trim(s: string): (r: string)
    ensures exists i :: Strips(s, r, i)
    ensures r == [] <==> AllSpace(s)
    ensures IsTrimmed(r)
  {
    TrimStrips(s);
    TrimEmptyIffAllSpace(s);
    TrimIsTrimmed(s);
    TrimEnd(TrimStart(s))
  }

  /** `trimEnd` after `trimStart` removes only spaces, from both ends. */
  lemma TrimStrips(s: string)
    ensures Strips(s, TrimEnd(TrimStart(s)), |s| - |TrimStart(s)|)
  {
    PrefixOfSuffix(s, TrimStart(s), TrimEnd(TrimStart(s)));
  }

  lemma TrimEmptyIffAllSpace(s: string)
    ensures TrimEnd(TrimStart(s)) == [] <==> AllSpace(s)
  {
    var t := TrimStart(s);
    var r := TrimEnd(t);
    var i := |s| - |t|;
    if r == [] {
      assert t[|r|..] == t;
      AllSpaceJoin(s[..i], t);
      assert s == s[..i] + t;
    } else {
      assert t[0] == r[0] == s[i];
    }
  }

  lemma TrimIsTrimmed(s: string)
    ensures IsTrimmed(TrimEnd(TrimStart(s)))
  {
    var t := TrimStart(s);
    var r := TrimEnd(t);
    if r != [] {
      assert t[0] == r[0];
    }
  }

  /** A prefix `r` of a suffix `t` of `s` is the slice of `s` where `t`
      starts, and what follows it in `s` is what follows it in `t`. */
  lemma PrefixOfSuffix(s: string, t: string, r: string)
    requires |t| <= |s| && t == s[|s| - |t|..]
    requires |r| <= |t| && r == t[..|r|]
    ensures OccursAt(s, r, |s| - |t|)
    ensures s[|s| - |t| + |r|..] == t[|r|..]
  {
  }

  /** Joining two all-space strings gives one. */
  lemma AllSpaceJoin(a: string, b: string)
    requires AllSpace(a) && AllSpace(b)
    ensures AllSpace(a + b)
  {
  }

  /** `s` has no leading or trailing space, so `trim` returns it unchanged. */
  predicate IsTrimmed(s: string) {
    |s| > 0 ==> !IsSpace(s[0]) && !IsSpace(s[|s| - 1])
  }

  /** The string is blank: every character is one `trim` removes, so that
      `s.trim()` is the falsy empty string (see `BlankIffTrimEmpty`). It is
      `AllSpace` unrolled one character at a time, which is the form the
      handlers' checks use. */
  predicate IsBlank(s: string) {
    s == [] || (IsSpace(s[0]) && IsBlank(s[1..]))
  }

  /** A string is blank exactly when its trim is empty. */
  lemma {:induction false} BlankIffTrimEmpty(s: string)
    ensures IsBlank(s) <==> Trim(s) == []
  {
    BlankIsAllSpace(s);
  }

  /** The recursive and the quantified definitions of blank agree. */
  lemma {:induction false} BlankIsAllSpace(s: string)
    ensures IsBlank(s) <==> AllSpace(s)
  {
    if s != [] {
      BlankIsAllSpace(s[1..]);
      assert forall k :: 1 <= k < |s| ==> s[k] == s[1..][k - 1];
    }
  }

  /** `toLowerCase` on one character, for the ASCII letters. */
  function LowerChar(c: char): char {
    if 'A' <= c <= 'Z' then (c as int + 32) as char else c
  }

  /** `toLowerCase`, mapping each ASCII capital to its small letter. */
  function ToLower(s: string): (r: string)
    ensures |r| == |s|
    ensures forall k :: 0 <= k < |s| ==> r[k] == LowerChar(s[k])
  {
    if s == [] then [] else [LowerChar(s[0])] + ToLower(s[1..])
  }

  /** `p` occurs in `s` starting at index `i`. */
  ghost predicate OccursAt(s: string, p: string, i: int) {
    0 <= i && i + |p| <= |s| && s[i..i + |p|] == p
  }

  /** `s.includes(p)`: some slice of `s` equals `p` (the empty needle is
      found in every string). */
  function Contains(s: string, p: string): (r: bool)
    ensures r <==> exists i :: OccursAt(s, p, i)
  {
    if p <= s then
      assert OccursAt(s, p, 0);
      true
    else if s == [] then
      assert forall i :: !OccursAt(s, p, i);
      false
    else
      var r := Contains(s[1..], p);
      assert forall i :: OccursAt(s[1..], p, i) <==> OccursAt(s, p, i + 1);
      assert forall i :: OccursAt(s, p, i) ==> i == 0 || OccursAt(s[1..], p, i - 1);
      r
  }

  /** The number of characters of `s` outside the Basic Multilingual Plane,
      counted from the end. */
  function Astral(s: string): nat {
    if s == [] then 0
    else Astral(s[..|s| - 1]) + (if s[|s| - 1] as int < 0x1_0000 then 0 else 1)
  }

  /** Counting from the front gives the same number. */
  lemma {:induction false} AstralFromFront(s: string)
    requires s != []
    ensures Astral(s) == (if s[0] as int < 0x1_0000 then 0 else 1) + Astral(s[1..])
    decreases |s|
  {
    if |s| > 1 {
      AstralFromFront(s[..|s| - 1]);
      assert s[..|s| - 1][1..] == s[1..][..|s[1..]| - 1];
    } else {
      assert s[1..] == [];
    }
  }

  /** The value of `s.length` in JavaScript: the number of UTF-16 code units,
      two for each character outside the Basic Multilingual Plane. */
  function Utf16Length(s: string): (n: nat)
    ensures n == |s| + Astral(s)
    ensures |s| <= n <= 2 * |s|
    ensures n == |s| <==> forall k :: 0 <= k < |s| ==> s[k] as int < 0x1_0000
  {
    if s == [] then 0
    else
      AstralFromFront(s);
      (if s[0] as int < 0x1_0000 then 1 else 2) + Utf16Length(s[1..])
  }

  /** Trimming twice is trimming once. */
  lemma {:induction false} TrimIdempotent(s: string)
    ensures Trim(Trim(s)) == Trim(s)
  {
    var t := Trim(s);
    if t == [] {
    } else {
      assert !IsSpace(t[0]);
      assert TrimStart(t) == t;
      assert !IsSpace(t[|t| - 1]);
      assert TrimEnd(t) == t;
    }
  }
}
