/** A concrete text table, showing that the assumptions on Text can be met, and what they leave possible. */
module Ascii {
  import opened Types
  import opened Text
  import opened Planner
  import opened RepeatIngest

  predicate IsLetter(c: char) {
    'a' <= c <= 'z' || 'A' <= c <= 'Z'
  }

  predicate IsDigit(c: char) {
    '0' <= c <= '9'
  }

  predicate IsSpace(c: char) {
    c == ' ' || c == '\t' || c == '\n' || c == '\r'
  }

  function Lower(c: char): char {
    if 'A' <= c <= 'Z' then (c as int - 'A' as int + 'a' as int) as char else c
  }

  function LowerAll(s: string): (r: string)
    ensures |r| == |s|
  {
    seq(|s|, i requires 0 <= i < |s| => Lower(s[i]))
  }

  const ASCII := Text(IsLetter, IsDigit, IsSpace, Lower, Lower, LowerAll)

  lemma {:induction false} TrimLeftLowers(s: string)
    ensures LowerAll(ASCII.TrimLeft(s)) == ASCII.TrimLeft(LowerAll(s))
    decreases |s|
  {
    if s != "" && IsSpace(s[0]) {
      TrimLeftLowers(s[1..]);
      assert LowerAll(s)[1..] == LowerAll(s[1..]);
    }
  }

  lemma {:induction false} TrimRightLowers(s: string)
    ensures LowerAll(ASCII.TrimRight(s)) == ASCII.TrimRight(LowerAll(s))
    decreases |s|
  {
    if s != "" && IsSpace(s[|s| - 1]) {
      TrimRightLowers(s[..|s| - 1]);
      assert LowerAll(s)[..|s| - 1] == LowerAll(s[..|s| - 1]);
    }
  }

  /** All that is assumed of the text tables holds of ASCII. */
  lemma AsciiValid()
    ensures ASCII.Valid()
  {
    forall a, b | ASCII.sqlLower(a) == ASCII.sqlLower(b)
      ensures ASCII.Normalized(a) == ASCII.Normalized(b)
    {
      LoweredTrim(a);
      LoweredTrim(b);
    }
  }

  lemma LoweredTrim(s: string)
    ensures ASCII.Lowered(ASCII.Trim(s)) == ASCII.Trim(LowerAll(s))
  {
    TrimLeftLowers(s);
    TrimRightLowers(ASCII.TrimLeft(s));
    assert ASCII.Lowered(ASCII.Trim(s)) == LowerAll(ASCII.Trim(s));
  }

  // ---- names and their trimmed forms ----

  /** Names without surrounding spaces are stable in every text table. */
  lemma TrimmedNamesAreStable(env: Env, subject: Option<Entity>, c: Candidate)
    requires forall e :: e in Mentions(env.u, subject, c) ==> env.u.Trim(e.name) == e.name
    ensures NamesStable(env, subject, c)
  {
    var ms := Mentions(env.u, subject, c);
    forall j | 0 <= j < |ms|
      ensures !Unstable(env.u, env.tables, subject, ms, j)
    {
      assert ms[j] in ms;
    }
  }
}
