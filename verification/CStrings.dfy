/** The C library string functions the HTTP code calls, on a `char *` given as the
    characters from the pointer on. A string ends at its first NUL, or at the end
    of the sequence. */
module CStrings {
  import Decimal
  import opened Lines

  datatype Option<+T> = None | Some(value: T)

  /** The string at a pointer: everything before the first NUL. */
  function CStr(s: seq<char>): (r: seq<char>)
    ensures |r| <= |s| && r == s[..|r|] && NUL !in r
    ensures |r| < |s| ==> s[|r|] == NUL
  {
    if s == [] || s[0] == NUL then [] else [s[0]] + CStr(s[1..])
  }

  lemma {:induction false} CStrIs(s: seq<char>, n: nat)
    requires n <= |s| && (forall k | 0 <= k < n :: s[k] != NUL) && (n < |s| ==> s[n] == NUL)
    ensures CStr(s) == s[..n]
    decreases n
  {
    if n > 0 {
      CStrIs(s[1..], n - 1);
    }
  }

  lemma {:induction false} CStrStopsAt(s: seq<char>, k: nat)
    requires k < |s| && s[k] == NUL
    ensures |CStr(s)| <= k
    decreases k
  {
    if s[0] != NUL {
      CStrStopsAt(s[1..], k - 1);
    }
  }

  /** A string that ends inside s is not changed by what follows s. */
  lemma {:induction false} CStrIgnoresRest(s: seq<char>, more: seq<char>)
    requires |CStr(s)| < |s|
    ensures CStr(s + more) == CStr(s)
  {
    var n := |CStr(s)|;
    assert forall k | 0 <= k < n :: s[k] == CStr(s)[k];
    CStrIs(s + more, n);
  }

  predicate IsBlank(c: char) {
    c == ' ' || c == '\t'
  }

  /** isspace in the C locale. */
  predicate IsSpace(c: char) {
    c == ' ' || c == '\t' || c == '\n' || c == '\r' || c == 11 as char || c == 12 as char
  }

  /** strpbrk(s + i, " \t"): the first blank of the string. */
  function FirstBlank(s: seq<char>, i: nat): (r: Option<nat>)
    requires i <= |s|
    ensures r.Some? ==> i <= r.value < |s| && IsBlank(s[r.value])
    ensures r.Some? ==> forall k | i <= k < r.value :: s[k] != NUL && !IsBlank(s[k])
    decreases |s| - i
  {
    if i == |s| || s[i] == NUL then None
    else if IsBlank(s[i]) then Some(i)
    else FirstBlank(s, i + 1)
  }

  /** i + strspn(s + i, " \t"): the first position that is not a blank. */
  function SkipBlanks(s: seq<char>, i: nat): (r: nat)
    requires i <= |s|
    ensures i <= r <= |s|
    ensures forall k | i <= k < r :: IsBlank(s[k])
    ensures r < |s| ==> !IsBlank(s[r])
    decreases |s| - i
  {
    if i < |s| && IsBlank(s[i]) then SkipBlanks(s, i + 1) else i
  }

  /** strchr(s + i, c) for a character other than NUL. */
  function FirstChar(s: seq<char>, i: nat, c: char): (r: Option<nat>)
    requires i <= |s|
    ensures r.Some? ==> i <= r.value < |s| && s[r.value] == c
    ensures r.Some? ==> forall k | i <= k < r.value :: s[k] != NUL && s[k] != c
    decreases |s| - i
  {
    if i == |s| || s[i] == NUL then None
    else if s[i] == c then Some(i)
    else FirstChar(s, i + 1, c)
  }

  function LowerChar(c: char): char {
    if 'A' <= c <= 'Z' then (c as int + 32) as char else c
  }

  /** strcasecmp(s, lowercase) == 0 */
  predicate SameIgnoringCase(s: seq<char>, lowercase: seq<char>) {
    |s| == |lowercase| && StartsIgnoringCase(s, lowercase)
  }

  /** strncasecmp(s, lowercase, |lowercase|) == 0 for a string s without NULs */
  predicate StartsIgnoringCase(s: seq<char>, lowercase: seq<char>)
    ensures StartsIgnoringCase(s, lowercase) ==> |s| >= |lowercase|
  {
    lowercase == [] || (s != [] && LowerChar(s[0]) == lowercase[0] && StartsIgnoringCase(s[1..], lowercase[1..]))
  }

  /** The comparison holds exactly when the strings agree in every character but for
      case. */
  lemma {:induction false} IgnoringCaseMeans(s: seq<char>, lowercase: seq<char>)
    ensures StartsIgnoringCase(s, lowercase) <==>
            |s| >= |lowercase| && forall k | 0 <= k < |lowercase| :: LowerChar(s[k]) == lowercase[k]
    decreases |lowercase|
  {
    if lowercase != [] && s != [] {
      IgnoringCaseMeans(s[1..], lowercase[1..]);
      if |s| >= |lowercase| {
        assert forall k | 1 <= k < |lowercase| :: s[k] == s[1..][k - 1] && lowercase[k] == lowercase[1..][k - 1];
      }
    }
  }

  /** The value of the digits at the front of s, carrying on from `acc`. */
  function LeadingDigits(s: seq<char>, acc: nat): (v: nat)
    ensures v >= acc
  {
    if s == [] || !Decimal.IsDigit(s[0]) then acc
    else LeadingDigits(s[1..], 10 * acc + (s[0] as int - '0' as int))
  }

  function SkipSpaces(s: seq<char>): (r: seq<char>)
    ensures |r| <= |s|
  {
    if s != [] && IsSpace(s[0]) then SkipSpaces(s[1..]) else s
  }

  /** `(int)atol(s)` with 64-bit long: the value is clamped to the range of long
      and then cut to its low 32 bits. */
  function AtolToInt(s: seq<char>): (v: int)
    ensures -0x8000_0000 <= v < 0x8000_0000
  {
    var t := SkipSpaces(s);
    var negative := t != [] && t[0] == '-';
    var digits := if t != [] && (t[0] == '-' || t[0] == '+') then t[1..] else t;
    var magnitude := LeadingDigits(digits, 0);
    var long: int :=
      if negative then (if magnitude > 0x8000_0000_0000_0000 then -0x8000_0000_0000_0000 else -(magnitude as int))
      else if magnitude > 0x7fff_ffff_ffff_ffff then 0x7fff_ffff_ffff_ffff else magnitude;
    var low := long % 0x1_0000_0000;
    if low >= 0x8000_0000 then low - 0x1_0000_0000 else low
  }
}
