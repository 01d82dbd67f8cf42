/** `String.prototype.replace(pattern, replacement)` for a string pattern and a string
    replacement, as ECMA-262 defines it: only the first occurrence is replaced, and
    the replacement goes through GetSubstitution (section 22.1.3.19.1 of ECMA-262),
    here with no capture groups. Strings are sequences of UTF-16 code units there
    and of Dafny characters here. */
module JsString {
  import opened Common

  /** `pat` occurs in `s` starting at index `i`. */
  predicate OccursAt(s: string, pat: string, i: nat) {
    i + |pat| <= |s| && s[i..i + |pat|] == pat
  }

  /** `i` is the first index where `pat` occurs in `s`. */
  predicate FirstOccurrence(s: string, pat: string, i: nat) {
    OccursAt(s, pat, i) && forall j: nat :: j < i ==> !OccursAt(s, pat, j)
  }

  /** StringIndexOf(s, pat, k): the first occurrence of `pat` at or after `k`. */
  function IndexOfFrom(s: string, pat: string, k: nat): (r: Option<nat>)
    requires k <= |s|
    ensures r.Some? ==> k <= r.value && OccursAt(s, pat, r.value)
    ensures r.Some? ==> forall j: nat :: k <= j < r.value ==> !OccursAt(s, pat, j)
    ensures r.None? ==> forall j: nat :: k <= j ==> !OccursAt(s, pat, j)
    decreases |s| - k
  {
    if OccursAt(s, pat, k) then Some(k)
    else if k == |s| then None
    else IndexOfFrom(s, pat, k + 1)
  }

  /** `s.indexOf(pat)`. */
  function IndexOf(s: string, pat: string): (r: Option<nat>)
    ensures r.Some? <==> exists i: nat :: FirstOccurrence(s, pat, i)
    ensures r.Some? ==> FirstOccurrence(s, pat, r.value)
    ensures forall i: nat :: FirstOccurrence(s, pat, i) ==> r == Some(i)
  {
    var r := IndexOfFrom(s, pat, 0);
    assert r.Some? ==> FirstOccurrence(s, pat, r.value);
    assert forall i: nat :: FirstOccurrence(s, pat, i) ==> r == Some(i) by {
      forall i: nat | FirstOccurrence(s, pat, i) ensures r == Some(i) {
        FirstOccurrenceUnique(s, pat, i, r.value);
      }
    }
    r
  }

  /** GetSubstitution with no capture groups: "$$" gives "$", "$`" the text before
      the match, "$&" the match, "$'" the text after it; every other character,
      including a '$' that starts none of these, is copied. */
  function Expand(t: string, before: string, matched: string, after: string): (e: string)
    ensures '$' !in t ==> e == t
    decreases |t|
  {
    if |t| == 0 then ""
    else if |t| >= 2 && t[0] == '$' && t[1] == '$' then "$" + Expand(t[2..], before, matched, after)
    else if |t| >= 2 && t[0] == '$' && t[1] == '`' then before + Expand(t[2..], before, matched, after)
    else if |t| >= 2 && t[0] == '$' && t[1] == '&' then matched + Expand(t[2..], before, matched, after)
    else if |t| >= 2 && t[0] == '$' && t[1] == '\'' then after + Expand(t[2..], before, matched, after)
    else
      assert '$' !in t ==> '$' !in t[1..] by {
        forall i | 0 <= i < |t[1..]| ensures t[1..][i] == t[i + 1] { }
      }
      [t[0]] + Expand(t[1..], before, matched, after)
  }

  /** `s.replace(pat, replacement)`. */
  function Replace(s: string, pat: string, replacement: string): (r: string)
    ensures (forall j: nat :: !OccursAt(s, pat, j)) ==> r == s
    ensures forall i: nat :: FirstOccurrence(s, pat, i) ==>
              var before, after := s[..i], s[i + |pat|..];
              r == before + Expand(replacement, before, pat, after) + after
  {
    match IndexOf(s, pat)
    case None => s
    case Some(i) =>
      var before, after := s[..i], s[i + |pat|..];
      before + Expand(replacement, before, pat, after) + after
  }

  /** With a '$'-free replacement, `replace` leaves a string without the pattern
      alone, and otherwise swaps exactly the first occurrence, keeping every later
      one in the text after it. */
  lemma ReplaceLiteral(s: string, pat: string, replacement: string)
    requires '$' !in replacement
    ensures (forall j: nat :: !OccursAt(s, pat, j)) ==> Replace(s, pat, replacement) == s
    ensures forall i: nat :: FirstOccurrence(s, pat, i) ==>
              Replace(s, pat, replacement) == s[..i] + replacement + s[i + |pat|..]
  {
    forall i: nat | FirstOccurrence(s, pat, i)
      ensures Replace(s, pat, replacement) == s[..i] + replacement + s[i + |pat|..]
    {
      assert Expand(replacement, s[..i], pat, s[i + |pat|..]) == replacement;
    }
  }

  /** A string has at most one first occurrence of a pattern. */
  lemma FirstOccurrenceUnique(s: string, pat: string, i: nat, k: nat)
    requires FirstOccurrence(s, pat, i) && FirstOccurrence(s, pat, k)
    ensures i == k
  {
  }

  /** "$$" gives one '$', "$`" the text before the match and "$'" the text after it. */
  lemma ExpandOtherPatterns(before: string, matched: string, after: string)
    ensures Expand("$$", before, matched, after) == "$"
    ensures Expand("$`", before, matched, after) == before
    ensures Expand("$'", before, matched, after) == after
  {
    assert "$$"[2..] == "" && "$`"[2..] == "" && "$'"[2..] == "";
  }

  /** "$&" in the replacement puts the matched text back. */
  lemma ExpandMatched(before: string, matched: string, after: string)
    ensures Expand("$&", before, matched, after) == matched
  {
    assert "$&"[2..] == "";
  }
}
