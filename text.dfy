/** The handful of Python str methods the parsers use: strip, lower, upper,
    endswith and replace, on strings as sequences of characters. */
module Text {
  import opened Errors

  /** The characters str.strip() removes that this model knows of: the ASCII
      whitespace characters, including the four separator controls. */
  predicate IsSpace(c: char)
  {
    c == ' ' || c == '\t' || c == '\n' || c == '\r' || c == '\U{B}' || c == '\U{C}' ||
    ('\U{1C}' <= c <= '\U{1F}')
  }

  function TrimStart(s: string): (r: string)
    ensures |r| <= |s| && r == s[|s| - |r|..]
    ensures r == [] || !IsSpace(r[0])
  {
    if |s| > 0 && IsSpace(s[0]) then TrimStart(s[1..]) else s
  }

  function TrimEnd(s: string): (r: string)
    ensures |r| <= |s| && r == s[..|r|]
    ensures r == [] || !IsSpace(r[|r| - 1])
  {
    if |s| > 0 && IsSpace(s[|s| - 1]) then TrimEnd(s[..|s| - 1]) else s
  }

  /** str.strip() */
  function Strip(s: string): string
  {
    TrimEnd(TrimStart(s))
  }

  /** Text that neither starts nor ends with whitespace is left as it is. */
  lemma StripUnpadded(s: string)
    requires |s| > 0 && !IsSpace(s[0]) && !IsSpace(s[|s| - 1])
    ensures Strip(s) == s
  {
  }

  /** The lower-case mapping of the characters that matter here: ASCII letters, the
      Greek capital omega and the ohm sign (both to the small omega) and the kelvin
      sign (to 'k'). */
  function LowerChar(c: char): char
  {
    if 'A' <= c <= 'Z' then (c as int + 32) as char
    else if c == '\U{3A9}' || c == '\U{2126}' then '\U{3C9}'
    else if c == '\U{212A}' then 'k'
    else c
  }

  function UpperChar(c: char): char
  {
    if 'a' <= c <= 'z' then (c as int - 32) as char else c
  }

  /** str.lower() */
  function Lower(s: string): (r: string)
    ensures |r| == |s|
  {
    seq(|s|, i requires 0 <= i < |s| => LowerChar(s[i]))
  }

  /** str.upper() */
  function Upper(s: string): (r: string)
    ensures |r| == |s|
  {
    seq(|s|, i requires 0 <= i < |s| => UpperChar(s[i]))
  }

  /** str.endswith(suffix) */
  predicate EndsWith(s: string, suffix: string)
  {
    |suffix| <= |s| && s[|s| - |suffix|..] == suffix
  }

  /** str.replace(pat, rep): every occurrence of pat, scanning left to right
      without overlap, is replaced by rep. */
  function ReplaceAll(s: string, pat: string, rep: string): string
    requires |pat| > 0
    decreases |s|
  {
    if |s| < |pat| then s
    else if s[..|pat|] == pat then rep + ReplaceAll(s[|pat|..], pat, rep)
    else [s[0]] + ReplaceAll(s[1..], pat, rep)
  }

  /** Replacing a pattern by itself changes nothing. */
  lemma {:induction false} ReplaceWithItself(s: string, pat: string)
    requires |pat| > 0
    ensures ReplaceAll(s, pat, pat) == s
    decreases |s|
  {
    if |s| < |pat| {
    } else if s[..|pat|] == pat {
      ReplaceWithItself(s[|pat|..], pat);
      assert s == pat + s[|pat|..];
    } else {
      ReplaceWithItself(s[1..], pat);
      assert s == [s[0]] + s[1..];
    }
  }

  /** lower() leaves no capital omega behind. */
  lemma LowerHasNoCapitalOmega(s: string)
    ensures forall i :: 0 <= i < |Lower(s)| ==> Lower(s)[i] != '\U{3A9}'
  {
    forall i | 0 <= i < |s|
      ensures Lower(s)[i] != '\U{3A9}'
    {
      assert Lower(s)[i] == LowerChar(s[i]);
    }
  }

  /** A one-character pattern that does not occur is never replaced. */
  lemma {:induction false} ReplaceAbsent(s: string, c: char, rep: string)
    requires forall i :: 0 <= i < |s| ==> s[i] != c
    ensures ReplaceAll(s, [c], rep) == s
    decreases |s|
  {
    if |s| >= 1 {
      ReplaceAbsent(s[1..], c, rep);
      assert s == [s[0]] + s[1..];
    }
  }

  /** Replacing never introduces a character found neither in the text nor in
      the replacement. */
  lemma {:induction false} ReplaceKeepsAbsent(s: string, pat: string, rep: string, c: char)
    requires |pat| > 0
    requires forall i :: 0 <= i < |s| ==> s[i] != c
    requires forall i :: 0 <= i < |rep| ==> rep[i] != c
    ensures forall i :: 0 <= i < |ReplaceAll(s, pat, rep)| ==> ReplaceAll(s, pat, rep)[i] != c
    decreases |s|
  {
    if |s| < |pat| {
    } else if s[..|pat|] == pat {
      ReplaceKeepsAbsent(s[|pat|..], pat, rep, c);
    } else {
      ReplaceKeepsAbsent(s[1..], pat, rep, c);
    }
  }

  /** A last character that does not occur in the pattern is still the last
      character after replace. */
  lemma {:induction false} ReplaceKeepsLast(s: string, pat: string, rep: string)
    requires |pat| > 0 && |s| > 0 && s[|s| - 1] !in pat
    ensures var r := ReplaceAll(s, pat, rep); |r| > 0 && r[|r| - 1] == s[|s| - 1]
    decreases |s|
  {
    if |s| >= |pat| {
      if |s| == |pat| {
        assert s[..|pat|] != pat by {
          assert s[..|pat|][|s| - 1] == s[|s| - 1];
        }
      }
      if s[..|pat|] == pat {
        ReplaceKeepsLast(s[|pat|..], pat, rep);
      } else if |s| > 1 {
        ReplaceKeepsLast(s[1..], pat, rep);
      }
    }
  }

  /** Text ending in a one-character pattern ends, after replace, in the
      replacement. */
  lemma {:induction false} ReplaceLastChar(s: string, c: char, rep: string)
    requires |s| > 0 && s[|s| - 1] == c
    ensures EndsWith(ReplaceAll(s, [c], rep), rep)
    decreases |s|
  {
    var r := ReplaceAll(s, [c], rep);
    if s[..1] == [c] && |s| == 1 {
      assert r == rep;
    } else {
      var tail := ReplaceAll(s[1..], [c], rep);
      ReplaceLastChar(s[1..], c, rep);
      var n := |r|;
      assert r[n - |rep|..] == tail[|tail| - |rep|..];
    }
  }

  /** The index of the first entry of the table whose suffix ends s, scanning the
      table in order from index k: the loop `for suffix, mult in ...: if
      s.endswith(suffix): return ...` of the parsers. */
  function FirstSuffixFrom<T>(s: string, table: seq<(string, T)>, k: nat): (r: Option<nat>)
    requires k <= |table|
    ensures r.Some? ==> k <= r.value < |table| && EndsWith(s, table[r.value].0)
    ensures r.Some? ==> forall j :: k <= j < r.value ==> !EndsWith(s, table[j].0)
    ensures r.None? ==> forall j :: k <= j < |table| ==> !EndsWith(s, table[j].0)
    decreases |table| - k
  {
    if k == |table| then None
    else if EndsWith(s, table[k].0) then Some(k)
    else FirstSuffixFrom(s, table, k + 1)
  }

  function FirstSuffix<T>(s: string, table: seq<(string, T)>): Option<nat>
  {
    FirstSuffixFrom(s, table, 0)
  }

  /** What the parsers do with the result of float(): a failure is an error, a
      number is scaled by the unit's multiplier. */
  function Scaled(x: Option<real>, mult: real): Result<real>
  {
    match x
    case None => Err(NotANumber)
    case Some(v) => Ok(v * mult)
  }

  /** float(text) on its own, as returned when no unit suffix matched. */
  function Plain(x: Option<real>): Result<real>
  {
    match x
    case None => Err(NotANumber)
    case Some(v) => Ok(v)
  }
}
