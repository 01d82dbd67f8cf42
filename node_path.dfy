/** The parts of Node's POSIX `path.extname` and `path.basename(p, suffix)` that the
    upload route relies on. Only '/' separates components. */
module NodePath {
  import opened Common

  /** Length of `p` once its trailing '/' characters are dropped. */
  function TrimmedEnd(p: string): (e: nat)
    ensures e <= |p|
    ensures forall i :: e <= i < |p| ==> p[i] == '/'
    ensures e > 0 ==> p[e - 1] != '/'
  {
    if |p| > 0 && p[|p| - 1] == '/' then TrimmedEnd(p[..|p| - 1]) else |p|
  }

  /** Index just after the last '/' of `p[..e]`, or 0 when there is none. */
  function ComponentStart(p: string, e: nat): (s: nat)
    requires e <= |p|
    ensures s <= e
    ensures forall i :: s <= i < e ==> p[i] != '/'
    ensures s > 0 ==> p[s - 1] == '/'
  {
    if e == 0 then 0 else if p[e - 1] == '/' then e else ComponentStart(p, e - 1)
  }

  /** The final path component, trailing separators ignored. */
  function FinalComponent(p: string): (c: string)
    ensures '/' !in c
    ensures |c| <= |p|
  {
    var e := TrimmedEnd(p);
    var s := ComponentStart(p, e);
    assert forall i :: 0 <= i < e - s ==> p[s..e][i] == p[s + i];
    p[s..e]
  }

  /** Index of the last occurrence of `ch` in `s`. */
  function LastIndexOf(s: string, ch: char): (r: Option<nat>)
    ensures r.Some? ==> r.value < |s| && s[r.value] == ch
    ensures r.Some? ==> forall i :: r.value < i < |s| ==> s[i] != ch
    ensures r.None? ==> ch !in s
  {
    if |s| == 0 then None
    else if s[|s| - 1] == ch then Some(|s| - 1)
    else
      var r := LastIndexOf(s[..|s| - 1], ch);
      assert s == s[..|s| - 1] + [s[|s| - 1]];
      r
  }

  /** `path.extname(p)`: the final component from its last '.', or "" when that
      component has no '.', its only candidate dot is its first character, or it
      is "..". */
  function ExtName(p: string): (ext: string)
    ensures ext != "" ==> ext[0] == '.' && '.' !in ext[1..] && '/' !in ext
    ensures ext != "" ==> var c := FinalComponent(p);
              |ext| < |c| && c[|c| - |ext|..] == ext
  {
    var c := FinalComponent(p);
    match LastIndexOf(c, '.')
    case None => ""
    case Some(d) =>
      if d == 0 || c == ".." then ""
      else
        assert forall i :: 0 <= i < |c| - d ==> c[d..][i] == c[d + i];
        c[d..]
  }

  /** `path.basename(p, suffix)`: the final component, without `suffix` when it
      ends with `suffix` and is longer than it. When the component is itself a
      proper tail of `suffix`, Node keeps everything from the component's start,
      trailing separators included. */
  function BaseName(p: string, suffix: string): (b: string)
  {
    var e := TrimmedEnd(p);
    var s := ComponentStart(p, e);
    var c := p[s..e];
    if suffix == "" || |suffix| > |p| then c
    else if suffix == p then ""
    else if |c| > |suffix| && c[|c| - |suffix|..] == suffix then c[..|c| - |suffix|]
    else if |c| < |suffix| && suffix[|suffix| - |c|..] == c then p[s..]
    else c
  }

  /** `extname` is empty exactly when the final component is "..", or has no '.'
      after its first character (no dot, or only a leading one as in ".profile");
      so "a." has the extension ".". */
  lemma ExtNameEmpty(p: string)
    ensures var c := FinalComponent(p);
      ExtName(p) == "" <==> c == ".." || forall i :: 0 < i < |c| ==> c[i] != '.'
  {
  }

  /** `basename` without a suffix, or with one that is neither a tail of the final
      component nor has that component as its tail, is the final component; a proper
      tail of the component is cut off. */
  lemma BaseNameCases(p: string, suffix: string)
    ensures suffix == "" ==> BaseName(p, suffix) == FinalComponent(p)
    ensures var c := FinalComponent(p);
      0 < |suffix| < |c| && c[|c| - |suffix|..] == suffix ==> BaseName(p, suffix) + suffix == c
    ensures var c := FinalComponent(p);
      (&& suffix != p
       && (|c| <= |suffix| || c[|c| - |suffix|..] != suffix)
       && (|c| >= |suffix| || suffix[|suffix| - |c|..] != c)) ==> BaseName(p, suffix) == c
  {
    var c := FinalComponent(p);
    if 0 < |suffix| < |c| && c[|c| - |suffix|..] == suffix {
      assert c[..|c| - |suffix|] + c[|c| - |suffix|..] == c;
    }
  }

  /** Stripping the extension and putting it back gives the final component. */
  lemma BaseNamePlusExtName(p: string)
    ensures BaseName(p, ExtName(p)) + ExtName(p) == FinalComponent(p)
  {
    var ext := ExtName(p);
    var c := FinalComponent(p);
    if ext != "" {
      assert |ext| < |p|;
      assert c[..|c| - |ext|] + c[|c| - |ext|..] == c;
    }
  }

  /** For an extension such as ".mp3" (a dot, then at least one character, no further
      dot or separator), `extname` yields it exactly when the final component ends
      with it and is longer than it. */
  lemma ExtNameIs(p: string, x: string)
    requires |x| >= 2 && x[0] == '.' && '.' !in x[1..] && '/' !in x
    ensures var c := FinalComponent(p);
      ExtName(p) == x <==> |c| > |x| && c[|c| - |x|..] == x
  {
    var c := FinalComponent(p);
    if |c| > |x| && c[|c| - |x|..] == x {
      var d := |c| - |x|;
      DotSuffix(c, x);
      LastDotAt(c, d);
      ExtNameAt(p, d);
    }
  }

  /** A tail of `c` that is a dot followed by dot-free text holds the last '.' of `c`. */
  lemma DotSuffix(c: string, x: string)
    requires |x| >= 1 && x[0] == '.' && '.' !in x[1..]
    requires |c| >= |x| && c[|c| - |x|..] == x
    ensures c[|c| - |x|] == '.'
    ensures forall i :: |c| - |x| < i < |c| ==> c[i] != '.'
  {
    var d := |c| - |x|;
    assert c[d] == c[d..][0];
    forall i | d < i < |c| ensures c[i] != '.' {
      assert c[i] == c[d..][i - d] == x[1..][i - d - 1];
    }
  }

  /** When the final component's last '.' is neither its first character nor part of
      "..", the extension runs from that '.' to the end. */
  lemma ExtNameAt(p: string, d: nat)
    requires var c := FinalComponent(p);
      LastIndexOf(c, '.') == Some(d) && d != 0 && |c| > 2
    ensures ExtName(p) == FinalComponent(p)[d..]
  {
  }

  /** A '.' with no '.' after it is the last one. */
  lemma LastDotAt(c: string, d: nat)
    requires d < |c| && c[d] == '.'
    requires forall i :: d < i < |c| ==> c[i] != '.'
    ensures LastIndexOf(c, '.') == Some(d)
  {
    var r := LastIndexOf(c, '.');
    assert r.Some?;
  }

  /** The final component of `dir + "/" + name`, for a non-empty `name` without
      separators, is `name`. */
  lemma FinalComponentOfJoin(dir: string, name: string)
    requires name != [] && '/' !in name
    ensures FinalComponent(dir + "/" + name) == name
  {
    var p := dir + "/" + name;
    assert p[|p| - 1] == name[|name| - 1];
    assert TrimmedEnd(p) == |p|;
    ComponentStartAfter(p, |dir| + 1, |p|);
    assert p[|dir| + 1..] == name;
  }

  /** A non-empty name without separators is its own final component. */
  lemma FinalComponentOfName(name: string)
    requires name != [] && '/' !in name
    ensures FinalComponent(name) == name
  {
    assert TrimmedEnd(name) == |name|;
    ComponentStartFrom0(name, |name|);
    assert name[0..|name|] == name;
  }

  lemma {:induction false} ComponentStartFrom0(p: string, e: nat)
    requires e <= |p| && forall i :: 0 <= i < e ==> p[i] != '/'
    ensures ComponentStart(p, e) == 0
    decreases e
  {
    if e > 0 {
      ComponentStartFrom0(p, e - 1);
    }
  }

  lemma {:induction false} ComponentStartAfter(p: string, k: nat, e: nat)
    requires 0 < k <= e <= |p| && p[k - 1] == '/'
    requires forall i :: k <= i < e ==> p[i] != '/'
    ensures ComponentStart(p, e) == k
    decreases e
  {
    if e > k {
      ComponentStartAfter(p, k, e - 1);
    }
  }
}
