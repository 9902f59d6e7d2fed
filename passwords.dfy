/** The pure rules of app.py: the password strength rating, the mask applied before an
    analysis is stored, the simulated third-party API check and the
    comparison of a stored hash with a re-hashed password. */
module Passwords {

  // ---------------------------------------------------------------------
  // Character classes (ASCII stand-ins for str.isupper, isalpha, isdigit)
  // ---------------------------------------------------------------------

  predicate IsUpper(c: char) { 'A' <= c <= 'Z' }
  predicate IsLower(c: char) { 'a' <= c <= 'z' }
  predicate IsAlpha(c: char) { IsUpper(c) || IsLower(c) }
  predicate IsDigit(c: char) { '0' <= c <= '9' }

  /** The characters that earn the "especial" point. */
  const SPECIALS: string := "!@#$%^&*()_+-=[]{}|;:,.<>?"

  predicate IsSpecial(c: char) { c in SPECIALS }

  /** Whether some character of `s` satisfies `f`. */
  function AnyChar(s: string, f: char -> bool): (b: bool)
    ensures b <==> exists i :: 0 <= i < |s| && f(s[i])
  {
    if s == [] then false
    else
      var rest := AnyChar(s[1..], f);
      assert forall i :: 1 <= i < |s| ==> s[i] == s[1..][i - 1];
      f(s[0]) || rest
  }

  // ---------------------------------------------------------------------
  // The strength rating
  // ---------------------------------------------------------------------

  /** The four criteria of the strength rating, each worth one point. */
  datatype Criteria = Criteria(longitud: bool, mayuscula: bool, especial: bool, alfanumerica: bool)

  /** The four criteria of one password, each met exactly when its
      character class occurs in it (both letters and digits for the last). */
  function CriteriaOf(password: string): (c: Criteria)
    ensures c.longitud <==> |password| >= 8
    ensures c.mayuscula <==> exists i :: 0 <= i < |password| && IsUpper(password[i])
    ensures c.especial <==> exists i :: 0 <= i < |password| && IsSpecial(password[i])
    ensures c.alfanumerica <==>
      (exists i :: 0 <= i < |password| && IsAlpha(password[i])) &&
      (exists j :: 0 <= j < |password| && IsDigit(password[j]))
  {
    Criteria(
      |password| >= 8,
      AnyChar(password, IsUpper),
      AnyChar(password, IsSpecial),
      AnyChar(password, IsAlpha) && AnyChar(password, IsDigit))
  }

  function Point(b: bool): nat { if b then 1 else 0 }

  /** One point per criterion met. */
  function Points(c: Criteria): nat {
    Point(c.longitud) + Point(c.mayuscula) + Point(c.especial) + Point(c.alfanumerica)
  }

  predicate AllMet(c: Criteria) {
    c.longitud && c.mayuscula && c.especial && c.alfanumerica
  }

  /** The score: one point per criterion met, one more when 2FA is on. */
  function Score(password: string, twofa: bool): (score: nat)
    ensures score <= 5
    ensures score == 5 <==> AllMet(CriteriaOf(password)) && twofa
    ensures twofa ==> score >= 1
  {
    Points(CriteriaOf(password)) + Point(twofa)
  }

  datatype Verdict = Fuerte | Media | Debil

  /** The text stored in the analysis log for a verdict. */
  function Label(v: Verdict): string {
    match v
    case Fuerte => "Fuerte"
    case Media => "Media"
    case Debil => "Débil"
  }

  /** Buckets ordered from weakest to strongest. */
  function Rank(v: Verdict): nat {
    match v
    case Debil => 0
    case Media => 1
    case Fuerte => 2
  }

  /** `analyze_password`: five points or more is strong, three or four is
      medium, anything less is weak. */
  function AnalyzePassword(password: string, twofa: bool): (v: Verdict)
    ensures v == Fuerte <==>
      twofa && |password| >= 8
      && (exists i :: 0 <= i < |password| && IsUpper(password[i]))
      && (exists i :: 0 <= i < |password| && IsSpecial(password[i]))
      && (exists i :: 0 <= i < |password| && IsAlpha(password[i]))
      && (exists i :: 0 <= i < |password| && IsDigit(password[i]))
    ensures v == Media <==> 3 <= Score(password, twofa) <= 4
    ensures v == Debil <==> Score(password, twofa) < 3
  {
    var score := Score(password, twofa);
    if score >= 5 then Fuerte
    else if score >= 3 then Media
    else Debil
  }

  /** Without 2FA a password is never rated strong. */
  lemma NoStrongWithoutTwoFactor(password: string)
    ensures AnalyzePassword(password, false) != Fuerte
  {
  }

  /** Switching 2FA on never lowers the verdict, and raises it by at most
      one bucket. */
  lemma TwoFactorNeverLowers(password: string)
    ensures Rank(AnalyzePassword(password, false)) <= Rank(AnalyzePassword(password, true))
    ensures Rank(AnalyzePassword(password, true)) <= Rank(AnalyzePassword(password, false)) + 1
  {
  }

  /** The worked example "Ab1!5678": all four criteria hold, so it is medium
      without 2FA and strong with it. */
  lemma ExampleFourCriteria()
    ensures AnalyzePassword("Ab1!5678", false) == Media
    ensures AnalyzePassword("Ab1!5678", true) == Fuerte
  {
    var p := "Ab1!5678";
    assert IsUpper(p[0]) && IsAlpha(p[0]) && IsDigit(p[2]) && IsSpecial(p[3]);
    assert AllMet(CriteriaOf(p));
  }

  /** The worked example "abc": no criterion holds, so it is weak. */
  lemma ExampleNoCriteria()
    ensures AnalyzePassword("abc", false) == Debil
  {
    var q := "abc";
    assert !IsUpper(q[0]) && !IsUpper(q[1]) && !IsUpper(q[2]);
    assert !IsSpecial(q[0]) && !IsSpecial(q[1]) && !IsSpecial(q[2]);
    assert !AnyChar(q, IsUpper);
    assert !AnyChar(q, IsSpecial);
    var c := CriteriaOf(q);
    assert !c.longitud && !c.mayuscula && !c.especial;
    assert Score(q, false) <= 1;
  }

  // ---------------------------------------------------------------------
  // The mask stored in place of the password
  // ---------------------------------------------------------------------

  const PLACEHOLDER: string := "***"

  /** The stored form of a password: its first two characters followed by
      three asterisks, or the three asterisks alone when it is shorter
      than two characters. */
  function Mask(password: string): (m: string)
    ensures |m| == if |password| >= 2 then 5 else 3
    ensures forall i :: |m| - 3 <= i < |m| ==> m[i] == '*'
    ensures |password| >= 2 ==> m[0] == password[0] && m[1] == password[1]
  {
    if |password| >= 2 then password[..2] + PLACEHOLDER else PLACEHOLDER
  }

  function Min(a: int, b: int): int { if a <= b then a else b }

  /** Nothing after the first two characters reaches the mask. */
  lemma MaskDependsOnlyOnPrefix(password: string)
    ensures Mask(password) == Mask(password[..Min(2, |password|)])
  {
    if |password| >= 2 {
      assert password[..2][..2] == password[..2];
    }
  }

  /** Two passwords get the same mask exactly when both are shorter than
      two characters or both start with the same two characters. */
  lemma MaskEqualIff(p: string, q: string)
    ensures Mask(p) == Mask(q) <==>
      (|p| < 2 && |q| < 2) || (|p| >= 2 && |q| >= 2 && p[..2] == q[..2])
  {
    if Mask(p) == Mask(q) && |p| >= 2 && |q| >= 2 {
      assert p[..2] == Mask(p)[..2] == Mask(q)[..2] == q[..2];
    }
  }

  /** The mask never determines the password: another password has the
      same mask. */
  lemma MaskLosesPassword(password: string)
    ensures exists other :: other != password && Mask(other) == Mask(password)
  {
    var other := if |password| >= 2 then password + "x"
                 else if password == "" then "x" else "";
    assert |other| != |password|;
    MaskEqualIff(other, password);
    if |password| >= 2 {
      assert other[..2] == password[..2];
    }
  }

  /** The mask leaves a password unchanged exactly when the password is two
      characters followed by the three asterisks, so such a password is
      stored verbatim. */
  lemma MaskFixedPointIff(password: string)
    ensures Mask(password) == password <==> |password| == 5 && password[2..] == PLACEHOLDER
  {
    var m := Mask(password);
    if |password| == 5 && password[2..] == PLACEHOLDER {
      assert forall i :: 2 <= i < 5 ==> password[i] == password[2..][i - 2];
      assert m == password;
    }
    if m == password {
      assert |password| == 5;
      assert forall i :: 2 <= i < 5 ==> m[i] == '*';
      assert password[2..] == PLACEHOLDER;
    }
  }

  /** "ab***" is its own mask. */
  lemma ExampleMaskFixedPoint()
    ensures Mask("ab***") == "ab***"
  {
    MaskFixedPointIff("ab***");
  }

  // ---------------------------------------------------------------------
  // The simulated API connection
  // ---------------------------------------------------------------------

  /** ASCII stand-in for str.lower on one character. */
  function LowerChar(c: char): (d: char)
    ensures !IsUpper(d)
    ensures IsUpper(c) ==> d as int == c as int + 32
    ensures !IsUpper(c) ==> d == c
  {
    if IsUpper(c) then (c as int + 32) as char else c
  }

  /** Lower-casing of a string, one character at a time. */
  function Lower(s: string): (r: string)
    ensures |r| == |s|
    ensures forall i :: 0 <= i < |s| ==> r[i] == LowerChar(s[i])
  {
    if s == [] then [] else [LowerChar(s[0])] + Lower(s[1..])
  }

  /** The names that connect successfully. */
  const KNOWN_APIS: seq<string> := ["facebook", "gmail", "twitter"]

  /** `simulate_api_connection`. */
  function SimulateApiConnection(apiName: string): (estado: string)
    ensures estado == "exitoso" || estado == "fallido"
    ensures estado == "exitoso" <==> Lower(apiName) in KNOWN_APIS
  {
    if Lower(apiName) in KNOWN_APIS then "exitoso" else "fallido"
  }

  /** Two names that agree after ASCII lowercasing. */
  predicate SameIgnoringCase(a: string, b: string) {
    |a| == |b| && forall i :: 0 <= i < |a| ==> LowerChar(a[i]) == LowerChar(b[i])
  }

  lemma {:induction false} LowerOfLowercase(s: string)
    requires forall i :: 0 <= i < |s| ==> !IsUpper(s[i])
    ensures Lower(s) == s
  {
    assert forall i :: 0 <= i < |s| ==> Lower(s)[i] == s[i];
  }

  /** The status is "exitoso" exactly when the name is one of the known
      names written in any mix of upper and lower case. */
  lemma ApiStatusIff(apiName: string)
    ensures SimulateApiConnection(apiName) == "exitoso" <==>
      exists k :: k in KNOWN_APIS && SameIgnoringCase(apiName, k)
  {
    forall k | k in KNOWN_APIS
      ensures Lower(apiName) == k <==> SameIgnoringCase(apiName, k)
    {
      assert forall i :: 0 <= i < |k| ==> !IsUpper(k[i]);
      LowerOfLowercase(k);
      if SameIgnoringCase(apiName, k) {
        assert forall i :: 0 <= i < |k| ==> Lower(apiName)[i] == LowerChar(k[i]) == k[i];
      }
    }
  }

  /** The status depends only on the lowercased name. */
  lemma ApiStatusIgnoresCase(a: string, b: string)
    requires SameIgnoringCase(a, b)
    ensures SimulateApiConnection(a) == SimulateApiConnection(b)
  {
    assert Lower(a) == Lower(b);
  }

  /** The worked example "Gmail": a known name in another case. */
  lemma ExampleKnownApi()
    ensures SimulateApiConnection("Gmail") == "exitoso"
  {
    var g := Lower("Gmail");
    assert g[0] == 'g';
    assert g == KNOWN_APIS[1];
  }

  /** A name whose length is not that of a known name always fails. */
  lemma UnknownLengthFails(apiName: string)
    requires forall k :: k in KNOWN_APIS ==> |k| != |apiName|
    ensures SimulateApiConnection(apiName) == "fallido"
  {
    assert |Lower(apiName)| == |apiName|;
  }

  /** The worked example "unknownservice": not a known name. */
  lemma ExampleUnknownApi()
    ensures SimulateApiConnection("unknownservice") == "fallido"
  {
    UnknownLengthFails("unknownservice");
  }

  // ---------------------------------------------------------------------
  // Password hashes
  // ---------------------------------------------------------------------

  /** `check_password`: the stored hash equals the hash of the supplied
      password. The hash function itself is a parameter. */
  function CheckPassword(hash: string -> string, hashed: string, password: string): bool {
    hashed == hash(password)
  }

  /** The password whose hash was stored is accepted, and acceptance
      depends on the supplied password only through its hash. */
  lemma CheckPasswordFacts(hash: string -> string, hashed: string, p: string, q: string)
    ensures CheckPassword(hash, hash(p), p)
    ensures hash(p) == hash(q) ==> CheckPassword(hash, hashed, p) == CheckPassword(hash, hashed, q)
    ensures CheckPassword(hash, hashed, p) && !CheckPassword(hash, hashed, q) ==> hash(p) != hash(q)
  {
  }
}
