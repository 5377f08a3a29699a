/**
 * The frontend's session-code format: the generator `generateSessionCode`
 * and the validator `isValidSessionCode` (frontend/src/utils/session.ts).
 *
 * The generator's calls to `Math.random()` are replaced by six caller-chosen
 * indices into the alphabet (`picks`); the validator's regular expression is
 * modelled as a sequence of single-character atoms matched end to end.
 */
module SessionCode {

  /** The alphabet the generator draws from: `A`..`Z` then `0`..`9`. */
  const Chars: string := "ABCDEFGHIJKLMNOPQRSTUVWXYZ0123456789"

  /** How many characters the generator draws; a dash follows the third. */
  const DrawCount: nat := 6

  /** The character class `[A-Z0-9]`, stated directly. */
  predicate IsCodeChar(c: char) {
    'A' <= c <= 'Z' || '0' <= c <= '9'
  }

  /** The k-th character of the alphabet, computed from character codes. */
  function AlphabetChar(k: nat): char
    requires k < 36
  {
    if k < 26 then ('A' as int + k) as char else ('0' as int + k - 26) as char
  }

  /** Position of a `[A-Z0-9]` character in the alphabet. */
  function AlphabetIndex(c: char): (k: nat)
    requires IsCodeChar(c)
    ensures k < |Chars| && Chars[k] == c
  {
    AlphabetAt(if 'A' <= c <= 'Z' then c as int - 'A' as int else c as int - '0' as int + 26);
    if 'A' <= c <= 'Z' then c as int - 'A' as int else c as int - '0' as int + 26
  }

  /** The alphabet literal is exactly `A`..`Z` followed by `0`..`9`. */
  lemma AlphabetAt(k: nat)
    requires k < 36
    ensures |Chars| == 36 && Chars[k] == AlphabetChar(k)
  {
  }

  /** Every alphabet character is in `[A-Z0-9]`, and no character occurs twice. */
  lemma AlphabetIsCodeChars(k: nat, m: nat)
    requires k < |Chars| && m < |Chars|
    ensures IsCodeChar(Chars[k])
    ensures Chars[k] == Chars[m] ==> k == m
  {
    AlphabetAt(k);
    AlphabetAt(m);
  }

  /** `chars.charAt(n)`: a one-character string, or "" when n is out of range. */
  function CharAt(s: string, n: nat): (r: string)
    ensures |r| <= 1
    ensures r != "" <==> n < |s|
    ensures r != "" ==> r[0] == s[n]
  {
    if n < |s| then [s[n]] else ""
  }

  // ---------------------------------------------------------------------
  // The validator: /^[A-Z0-9]{3}-[A-Z0-9]{3}$/.test(code)
  // ---------------------------------------------------------------------

  /** One position of a regular expression that matches a single character. */
  datatype Atom = Ranges(ranges: seq<(char, char)>) | Literal(c: char)

  predicate AtomMatches(a: Atom, c: char) {
    match a
    case Ranges(rs) => exists i :: 0 <= i < |rs| && rs[i].0 <= c <= rs[i].1
    case Literal(l) => c == l
  }

  /** `[A-Z0-9]`; the expression carries no case-insensitive flag. */
  const UpperOrDigit: Atom := Ranges([('A', 'Z'), ('0', '9')])

  /** The atom `a` repeated n times: `a{n}`. */
  function Repeat(a: Atom, n: nat): seq<Atom> {
    seq(n, _ => a)
  }

  /** `[A-Z0-9]{3}-[A-Z0-9]{3}`: seven one-character atoms, a dash in the middle. */
  function SessionCodePattern(): (p: seq<Atom>)
    ensures |p| == 7 && p[3] == Literal('-')
    ensures forall i :: 0 <= i < 7 && i != 3 ==> p[i] == UpperOrDigit
  {
    Repeat(UpperOrDigit, 3) + [Literal('-')] + Repeat(UpperOrDigit, 3)
  }

  /** An anchored match `^p$`: each atom consumes one character and nothing is left over. */
  predicate FullMatch(p: seq<Atom>, s: string)
    ensures FullMatch(p, s) ==> |s| == |p|
    decreases |p|
  {
    if p == [] then s == []
    else s != [] && AtomMatches(p[0], s[0]) && FullMatch(p[1..], s[1..])
  }

  /** `isValidSessionCode(code)`: the whole code matches the pattern. */
  predicate IsValidSessionCode(code: string)
    ensures IsValidSessionCode(code) ==> |code| == 7 && code[3] == '-'
  {
    FullMatchPointwise(SessionCodePattern(), code);
    FullMatch(SessionCodePattern(), code)
  }

  /** An anchored match of single-character atoms is a position-by-position match of equal lengths. */
  lemma {:induction false} FullMatchPointwise(p: seq<Atom>, s: string)
    ensures FullMatch(p, s) <==>
      |s| == |p| && forall i :: 0 <= i < |s| ==> AtomMatches(p[i], s[i])
    decreases |p|
  {
    if p != [] && s != [] {
      FullMatchPointwise(p[1..], s[1..]);
      if |s| == |p| && forall i :: 1 <= i < |s| ==> AtomMatches(p[i], s[i]) {
        assert forall i :: 0 <= i < |s| - 1 ==> AtomMatches(p[1..][i], s[1..][i]) by {
          forall i | 0 <= i < |s| - 1 ensures AtomMatches(p[1..][i], s[1..][i]) {
            assert p[1..][i] == p[i + 1] && s[1..][i] == s[i + 1];
          }
        }
      }
    }
  }

  lemma UpperOrDigitMatches(c: char)
    ensures AtomMatches(UpperOrDigit, c) <==> IsCodeChar(c)
  {
    var rs := UpperOrDigit.ranges;
    if 'A' <= c <= 'Z' {
      assert rs[0].0 <= c <= rs[0].1;
    } else if '0' <= c <= '9' {
      assert rs[1].0 <= c <= rs[1].1;
    }
  }

  /** The regular expression accepts exactly the seven-character strings with a dash in the
      middle and `A`-`Z` or `0`-`9` everywhere else. */
  lemma ValidSessionCodeShape(code: string)
    ensures IsValidSessionCode(code) <==>
      |code| == 7 && code[3] == '-' &&
      forall i :: 0 <= i < |code| && i != 3 ==> IsCodeChar(code[i])
  {
    var p := SessionCodePattern();
    FullMatchPointwise(p, code);
    forall i | 0 <= i < |code| {
      UpperOrDigitMatches(code[i]);
    }
  }

  /** A lower-case letter anywhere makes a code invalid: the expression is case-sensitive. */
  lemma RejectsLowercase(code: string, i: nat)
    requires i < |code| && 'a' <= code[i] <= 'z'
    ensures !IsValidSessionCode(code)
  {
    ValidSessionCodeShape(code);
  }

  // ---------------------------------------------------------------------
  // The generator
  // ---------------------------------------------------------------------

  /** The code built by the generator's first n loop iterations: one drawn character per
      iteration, and a dash appended in the iteration with index 2. */
  function Prefix(picks: seq<nat>, n: nat): (r: string)
    requires n <= |picks|
    ensures |r| <= n + (if n >= 3 then 1 else 0)
  {
    if n == 0 then ""
    else Prefix(picks, n - 1) + CharAt(Chars, picks[n - 1]) + (if n - 1 == 2 then "-" else "")
  }

  /** The code generated from six drawn indices. */
  function Generated(picks: seq<nat>): (r: string)
    requires |picks| == DrawCount
    ensures |r| <= 7
  {
    Prefix(picks, DrawCount)
  }

  predicate InAlphabet(picks: seq<nat>) {
    forall i :: 0 <= i < |picks| ==> picks[i] < |Chars|
  }

  /** `generateSessionCode()` with the six random draws supplied as `picks`
      (each draw is `Math.floor(Math.random() * chars.length)`). */
  method GenerateSessionCode(picks: seq<nat>) returns (code: string)
    requires |picks| == DrawCount
    ensures code == Generated(picks)
    ensures IsValidSessionCode(code) <==> InAlphabet(picks)
  {
    code := "";
    for i := 0 to DrawCount
      invariant code == Prefix(picks, i)
    {
      code := code + CharAt(Chars, picks[i]);
      if i == 2 {
        code := code + "-";
      }
    }
    GeneratedValidIff(picks);
  }

  /** The draw that supplies position i (i != 3) of a code. */
  function DrawIndex(i: nat): nat {
    if i < 3 then i else i - 1
  }

  /** The position of a code that draw k supplies. */
  function CodePosition(k: nat): nat {
    if k < 3 then k else k + 1
  }

  /** With in-range draws the code is the three drawn characters, a dash, and the other three. */
  lemma GeneratedLayout(picks: seq<nat>)
    requires |picks| == DrawCount && InAlphabet(picks)
    ensures var g := Generated(picks);
      |g| == 7 && g[3] == '-' &&
      forall i :: 0 <= i < 7 && i != 3 ==> g[i] == Chars[picks[DrawIndex(i)]]
  {
    var c := seq(6, k requires 0 <= k < 6 => Chars[picks[k]]);
    assert Prefix(picks, 1) == [c[0]];
    assert Prefix(picks, 2) == [c[0], c[1]];
    assert Prefix(picks, 3) == [c[0], c[1], c[2], '-'];
    assert Prefix(picks, 4) == [c[0], c[1], c[2], '-', c[3]];
    assert Prefix(picks, 5) == [c[0], c[1], c[2], '-', c[3], c[4]];
    assert Prefix(picks, 6) == [c[0], c[1], c[2], '-', c[3], c[4], c[5]];
  }

  /** Each iteration adds at most one drawn character (and the dash once), and exactly one
      only when its draw is in range. */
  lemma {:induction false} PrefixLength(picks: seq<nat>, n: nat)
    requires n <= |picks|
    ensures |Prefix(picks, n)| <= n + (if n >= 3 then 1 else 0)
    ensures (exists i :: 0 <= i < n && picks[i] >= |Chars|) ==>
      |Prefix(picks, n)| < n + (if n >= 3 then 1 else 0)
  {
    if n > 0 {
      PrefixLength(picks, n - 1);
      if picks[n - 1] < |Chars| {
        assert (exists i :: 0 <= i < n && picks[i] >= |Chars|) ==>
          exists i :: 0 <= i < n - 1 && picks[i] >= |Chars|;
      }
    }
  }

  /** Every generated code passes the validator exactly when every draw is an alphabet index;
      an out-of-range draw makes `charAt` return "" and leaves the code too short. */
  lemma GeneratedValidIff(picks: seq<nat>)
    requires |picks| == DrawCount
    ensures IsValidSessionCode(Generated(picks)) <==> InAlphabet(picks)
  {
    var g := Generated(picks);
    ValidSessionCodeShape(g);
    if InAlphabet(picks) {
      GeneratedLayout(picks);
      forall i | 0 <= i < |g| && i != 3 ensures IsCodeChar(g[i]) {
        AlphabetIsCodeChars(picks[DrawIndex(i)], 0);
      }
    } else {
      PrefixLength(picks, DrawCount);
    }
  }

  /** The draws that produce a given valid code: the alphabet index of each of its six letters. */
  function PicksOf(code: string): (picks: seq<nat>)
    requires IsValidSessionCode(code)
    ensures |picks| == DrawCount && InAlphabet(picks)
  {
    ValidSessionCodeShape(code);
    var picks: seq<nat> := seq(DrawCount, k requires 0 <= k < DrawCount =>
      AlphabetIndex(code[CodePosition(k)]));
    assert forall k :: 0 <= k < DrawCount ==> picks[k] == AlphabetIndex(code[CodePosition(k)]);
    picks
  }

  /** Every valid code is generated by the draws `PicksOf` recovers from it. */
  lemma GeneratedPicksOf(code: string)
    requires IsValidSessionCode(code)
    ensures Generated(PicksOf(code)) == code
  {
    ValidSessionCodeShape(code);
    var q := PicksOf(code);
    GeneratedLayout(q);
    var g := Generated(q);
    forall i | 0 <= i < 7 ensures g[i] == code[i] {
      if i != 3 {
        assert CodePosition(DrawIndex(i)) == i;
      }
    }
  }

  /** In-range draws are recovered from the code they generate. */
  lemma PicksOfGenerated(picks: seq<nat>)
    requires |picks| == DrawCount && InAlphabet(picks)
    ensures IsValidSessionCode(Generated(picks)) && PicksOf(Generated(picks)) == picks
  {
    GeneratedValidIff(picks);
    GeneratedLayout(picks);
    var r := PicksOf(Generated(picks));
    forall k | 0 <= k < DrawCount ensures r[k] == picks[k] {
      assert DrawIndex(CodePosition(k)) == k;
      AlphabetIsCodeChars(r[k], picks[k]);
    }
  }

  /** Distinct in-range draws give distinct codes. */
  lemma GeneratedInjective(p: seq<nat>, q: seq<nat>)
    requires |p| == DrawCount && InAlphabet(p)
    requires |q| == DrawCount && InAlphabet(q)
    requires Generated(p) == Generated(q)
    ensures p == q
  {
    PicksOfGenerated(p);
    PicksOfGenerated(q);
  }
}
