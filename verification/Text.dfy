/** Text normalisation.  The Unicode tables and the database's lower() are parameters: a Text value
    supplies them, and Valid lists all that is assumed of them. */
module Text {
  datatype Text = Text(
    isLetter: char -> bool,
    isDigit: char -> bool,
    isSpace: char -> bool,
    lower: char -> char,
    fold: char -> char,
    sqlLower: string -> string)
  {
    /** Lowering is idempotent, a blank is a space and stays one, lowering neither makes nor unmakes a space, no
        space is a letter or digit, the characters of the edge keys are none of these, and names the database
        takes for equal up to case normalise to the same text. */
    ghost predicate Valid() {
      && (forall c :: lower(lower(c)) == lower(c))
      && lower(' ') == ' ' && isSpace(' ')
      && (forall c :: isSpace(lower(c)) <==> isSpace(c))
      && (forall c :: isSpace(c) ==> !Word(c))
      && !Word('-') && !Word('>') && !Word(':')
      && (forall a, b :: sqlLower(a) == sqlLower(b) ==> Normalized(a) == Normalized(b))
    }

    predicate Word(c: char) {
      isLetter(c) || isDigit(c)
    }

    // ---- library functions ----

    function TrimLeft(s: string): string {
      if s != "" && isSpace(s[0]) then TrimLeft(s[1..]) else s
    }

    function TrimRight(s: string): string {
      if s != "" && isSpace(s[|s| - 1]) then TrimRight(s[..|s| - 1]) else s
    }

    function Trim(s: string): string {
      TrimRight(TrimLeft(s))
    }

    function Lowered(s: string): (r: string)
      ensures |r| == |s|
    {
      seq(|s|, i requires 0 <= i < |s| => lower(s[i]))
    }

    predicate EqualFold(a: string, b: string) {
      |a| == |b| && forall i :: 0 <= i < |a| ==> fold(a[i]) == fold(b[i])
    }

    /** The length of the run of non-spaces at the start. */
    function RunLength(s: string): (n: nat)
      ensures n <= |s|
      ensures forall i :: 0 <= i < n ==> !isSpace(s[i])
      ensures n < |s| ==> isSpace(s[n])
    {
      if s == "" || isSpace(s[0]) then 0 else 1 + RunLength(s[1..])
    }

    /** The maximal runs of non-spaces. */
    function Fields(s: string): seq<string>
      decreases |s|
    {
      if s == "" then []
      else if isSpace(s[0]) then Fields(s[1..])
      else
        var n := RunLength(s);
        [s[..n]] + Fields(s[n..])
    }

    // ---- normalisation ----

    /** What the loop writes for one character. */
    function Kept1(c: char): string {
      if Word(c) then [c] else if isSpace(c) then " " else ""
    }

    function Kept(s: string): string {
      if s == "" then "" else Kept(s[..|s| - 1]) + Kept1(s[|s| - 1])
    }

    function Normalized(value: string): string {
      Join(Fields(Kept(Lowered(Trim(value)))))
    }
  }

  /** Words separated by single blanks. */
  function Join(words: seq<string>): string {
    if words == [] then ""
    else if |words| == 1 then words[0]
    else words[0] + " " + Join(words[1..])
  }

  method NormalizedText(u: Text, value: string) returns (r: string)
    ensures r == u.Normalized(value)
  {
    var lowered := u.Lowered(u.Trim(value));
    var builder := "";
    var i := 0;
    while i < |lowered|
      invariant 0 <= i <= |lowered|
      invariant builder == u.Kept(lowered[..i])
    {
      var c := lowered[i];
      assert lowered[..i + 1][..i] == lowered[..i];
      if u.isLetter(c) || u.isDigit(c) {
        builder := builder + [c];
      } else if u.isSpace(c) {
        builder := builder + " ";
      }
      i := i + 1;
    }
    assert lowered[..i] == lowered;
    r := Join(u.Fields(builder));
  }

  // ---- the shape of normalised text ----

  /** A word of normalised text: letters and digits, already lowered. */
  ghost predicate IsWord(u: Text, w: string) {
    w != "" && forall i :: 0 <= i < |w| ==> u.Word(w[i]) && u.lower(w[i]) == w[i]
  }

  ghost predicate AreWords(u: Text, words: seq<string>) {
    forall i :: 0 <= i < |words| ==> IsWord(u, words[i])
  }

  /** Letters, digits and blanks; no blank at an end and no two in a row. */
  ghost predicate IsNormal(u: Text, s: string) {
    && (forall i :: 0 <= i < |s| ==> (u.Word(s[i]) && u.lower(s[i]) == s[i]) || s[i] == ' ')
    && (s != "" ==> s[0] != ' ' && s[|s| - 1] != ' ')
    && (forall i :: 0 < i < |s| ==> s[i - 1] != ' ' || s[i] != ' ')
  }

  ghost predicate LoweredChars(u: Text, s: string) {
    forall i :: 0 <= i < |s| ==> u.lower(s[i]) == s[i]
  }

  lemma {:induction false} KeptChars(u: Text, s: string)
    requires u.Valid() && LoweredChars(u, s)
    ensures forall i :: 0 <= i < |u.Kept(s)| ==> var c := u.Kept(s)[i]; u.lower(c) == c && (u.Word(c) || c == ' ')
    decreases |s|
  {
    if s != "" {
      KeptChars(u, s[..|s| - 1]);
    }
  }

  lemma {:induction false} FieldsAreWords(u: Text, s: string)
    requires u.Valid()
    requires forall i :: 0 <= i < |s| ==> u.lower(s[i]) == s[i] && (u.Word(s[i]) || s[i] == ' ')
    ensures AreWords(u, u.Fields(s))
    decreases |s|
  {
    if s == "" {
    } else if u.isSpace(s[0]) {
      FieldsAreWords(u, s[1..]);
    } else {
      FieldsAreWords(u, s[u.RunLength(s)..]);
    }
  }

  /** Normalised text is some words joined. */
  lemma NormalizedWords(u: Text, value: string) returns (words: seq<string>)
    requires u.Valid()
    ensures AreWords(u, words) && u.Normalized(value) == Join(words)
  {
    var lowered := u.Lowered(u.Trim(value));
    KeptChars(u, lowered);
    words := u.Fields(u.Kept(lowered));
    FieldsAreWords(u, u.Kept(lowered));
  }

  lemma {:induction false} JoinIsNormal(u: Text, words: seq<string>)
    requires u.Valid() && AreWords(u, words)
    ensures IsNormal(u, Join(words))
    ensures words != [] ==> Join(words) != "" && Join(words)[0] == words[0][0]
    decreases |words|
  {
    if words != [] {
      assert IsWord(u, words[0]);
      JoinIsNormal(u, words[1..]);
    }
  }

  lemma NormalizedIsNormal(u: Text, value: string)
    requires u.Valid()
    ensures IsNormal(u, u.Normalized(value))
  {
    var words := NormalizedWords(u, value);
    JoinIsNormal(u, words);
  }

  // ---- normalising twice ----

  lemma {:induction false} RunOf(u: Text, w: string, rest: string)
    requires forall i :: 0 <= i < |w| ==> !u.isSpace(w[i])
    requires rest == "" || u.isSpace(rest[0])
    ensures u.RunLength(w + rest) == |w|
    decreases |w|
  {
    if w != "" {
      assert (w + rest)[1..] == w[1..] + rest;
      RunOf(u, w[1..], rest);
    } else {
      assert w + rest == rest;
    }
  }

  lemma {:induction false} FieldsOfJoin(u: Text, words: seq<string>)
    requires u.Valid() && AreWords(u, words)
    ensures u.Fields(Join(words)) == words
    decreases |words|
  {
    if words != [] {
      var w, rest := words[0], words[1..];
      assert IsWord(u, w);
      FieldsOfJoin(u, rest);
      if rest == [] {
        RunOf(u, w, "");
        assert w + "" == w && w[|w|..] == "" && u.Fields("") == [];
      } else {
        var tail := " " + Join(rest);
        RunOf(u, w, tail);
        assert Join(words) == w + tail;
        assert (w + tail)[|w|..] == tail && (w + tail)[..|w|] == w;
        assert tail[1..] == Join(rest);
        assert u.Fields(tail) == u.Fields(Join(rest));
      }
      assert words == [w] + rest;
    }
  }

  lemma {:induction false} KeptOfNormal(u: Text, s: string)
    requires u.Valid()
    requires forall i :: 0 <= i < |s| ==> u.Word(s[i]) || s[i] == ' '
    ensures u.Kept(s) == s
    decreases |s|
  {
    if s != "" {
      KeptOfNormal(u, s[..|s| - 1]);
      assert s == s[..|s| - 1] + [s[|s| - 1]];
    }
  }

  lemma JoinStable(u: Text, words: seq<string>)
    requires u.Valid() && AreWords(u, words)
    ensures u.Normalized(Join(words)) == Join(words)
  {
    var s := Join(words);
    JoinIsNormal(u, words);
    assert u.Trim(s) == s;
    assert u.Lowered(s) == s;
    KeptOfNormal(u, s);
    FieldsOfJoin(u, words);
  }

  /** Normalisation is idempotent. */
  lemma NormalizedIdempotent(u: Text, value: string)
    requires u.Valid()
    ensures u.Normalized(u.Normalized(value)) == u.Normalized(value)
  {
    var words := NormalizedWords(u, value);
    JoinStable(u, words);
  }

  /** Surrounding whitespace never matters to the key of a name. */
  lemma NormalizedTrim(u: Text, value: string)
    ensures u.Normalized(u.Trim(value)) == u.Normalized(value)
  {
    TrimLeftDone(u, value);
    TrimLeftThenRight(u, u.TrimLeft(value));
    TrimRightDone(u, u.TrimLeft(value));
  }

  lemma {:induction false} TrimLeftDone(u: Text, s: string)
    ensures var r := u.TrimLeft(s); r == "" || !u.isSpace(r[0])
    decreases |s|
  {
    if s != "" && u.isSpace(s[0]) {
      TrimLeftDone(u, s[1..]);
    }
  }

  lemma {:induction false} TrimRightDone(u: Text, s: string)
    ensures u.TrimRight(u.TrimRight(s)) == u.TrimRight(s)
    decreases |s|
  {
    if s != "" && u.isSpace(s[|s| - 1]) {
      TrimRightDone(u, s[..|s| - 1]);
    }
  }

  /** Trimming the right end leaves the left end as it was. */
  lemma {:induction false} TrimLeftThenRight(u: Text, s: string)
    requires s == "" || !u.isSpace(s[0])
    ensures u.TrimLeft(u.TrimRight(s)) == u.TrimRight(s)
    decreases |s|
  {
    if s != "" && u.isSpace(s[|s| - 1]) {
      TrimLeftThenRight(u, s[..|s| - 1]);
    }
  }

  /** Trimming takes off only spaces, and all of them. */
  lemma TrimTakesSpaces(u: Text, s: string)
    ensures exists i, j :: && 0 <= i <= j <= |s| && u.Trim(s) == s[i..j]
                           && (forall k :: 0 <= k < i || j <= k < |s| ==> u.isSpace(s[k]))
    ensures u.Trim(s) != "" ==> !u.isSpace(u.Trim(s)[0]) && !u.isSpace(u.Trim(s)[|u.Trim(s)| - 1])
  {
    var i := TrimLeftIs(u, s);
    var j := TrimRightIs(u, s[i..]);
    assert s[i..][..j] == s[i..i + j];
    assert forall k :: i + j <= k < |s| ==> s[k] == s[i..][k - i];
    TrimLeftDone(u, s);
    TrimLeftThenRight(u, s[i..]);
    TrimLeftDone(u, u.Trim(s));
  }

  lemma {:induction false} TrimLeftIs(u: Text, s: string) returns (i: nat)
    ensures i <= |s| && u.TrimLeft(s) == s[i..] && forall k :: 0 <= k < i ==> u.isSpace(s[k])
    decreases |s|
  {
    i := 0;
    if s != "" && u.isSpace(s[0]) {
      i := TrimLeftIs(u, s[1..]);
      i := i + 1;
      assert s[1..][i - 1..] == s[i..];
      assert forall k :: 1 <= k < i ==> s[k] == s[1..][k - 1];
    }
  }

  lemma {:induction false} TrimRightIs(u: Text, s: string) returns (j: nat)
    ensures j <= |s| && u.TrimRight(s) == s[..j] && forall k :: j <= k < |s| ==> u.isSpace(s[k])
    ensures j > 0 ==> !u.isSpace(s[j - 1])
    decreases |s|
  {
    j := |s|;
    if s != "" && u.isSpace(s[|s| - 1]) {
      j := TrimRightIs(u, s[..|s| - 1]);
      assert s[..|s| - 1][..j] == s[..j];
    } else {
      assert s[..|s|] == s;
    }
  }

  /** Case folding compares character by character. */
  lemma EqualFoldChars(u: Text, c: char, a: string, d: char, b: string)
    ensures u.EqualFold([c] + a, [d] + b) <==> u.fold(c) == u.fold(d) && u.EqualFold(a, b)
    ensures !u.EqualFold("", [d] + b) && !u.EqualFold([c] + a, "") && u.EqualFold("", "")
  {
    var x, y := [c] + a, [d] + b;
    assert forall i :: 0 < i < |x| ==> x[i] == a[i - 1];
    assert forall i :: 0 < i < |y| ==> y[i] == b[i - 1];
    assert x[0] == c && y[0] == d;
    if u.EqualFold(x, y) {
      forall i | 0 <= i < |a|
        ensures u.fold(a[i]) == u.fold(b[i])
      {
        assert u.fold(x[i + 1]) == u.fold(y[i + 1]);
      }
    }
  }

  // ---- normalisation, piece by piece ----

  lemma {:induction false} KeptConcat(u: Text, x: string, y: string)
    ensures u.Kept(x + y) == u.Kept(x) + u.Kept(y)
    decreases |y|
  {
    if y == "" {
      assert x + y == x;
    } else {
      KeptConcat(u, x, y[..|y| - 1]);
      assert (x + y)[..|x + y| - 1] == x + y[..|y| - 1];
    }
  }

  lemma KeptJoin(u: Text, a: string, b: string)
    ensures u.Kept(u.Lowered(a + b)) == u.Kept(u.Lowered(a)) + u.Kept(u.Lowered(b))
  {
    assert u.Lowered(a + b) == u.Lowered(a) + u.Lowered(b);
    KeptConcat(u, u.Lowered(a), u.Lowered(b));
  }

  lemma KeptChar(u: Text, c: char)
    ensures u.Kept(u.Lowered([c])) == u.Kept1(u.lower(c))
  {
    var s := u.Lowered([c]);
    assert s == [u.lower(c)] && s[..0] == "";
  }

  lemma {:induction false} FieldsSplit(u: Text, x: string, y: string)
    requires u.isSpace(' ')
    ensures u.Fields(x + " " + y) == u.Fields(x) + u.Fields(y)
    decreases |x|
  {
    var s := x + " " + y;
    if x == "" {
      assert s == " " + y && s[1..] == y;
    } else if u.isSpace(x[0]) {
      FieldsSplit(u, x[1..], y);
      assert s[1..] == x[1..] + " " + y;
    } else {
      var n := u.RunLength(x);
      RunOf(u, x[..n], x[n..] + " " + y);
      assert s == x[..n] + (x[n..] + " " + y);
      assert s[..n] == x[..n] && s[n..] == x[n..] + " " + y;
      FieldsSplit(u, x[n..], y);
    }
  }

  lemma {:induction false} TrimLeftFields(u: Text, s: string)
    requires u.Valid()
    ensures u.Fields(u.Kept(u.Lowered(u.TrimLeft(s)))) == u.Fields(u.Kept(u.Lowered(s)))
    decreases |s|
  {
    if s != "" && u.isSpace(s[0]) {
      TrimLeftFields(u, s[1..]);
      assert s == [s[0]] + s[1..];
      KeptJoin(u, [s[0]], s[1..]);
      KeptChar(u, s[0]);
      var rest := u.Kept(u.Lowered(s[1..]));
      FieldsSplit(u, "", rest);
      assert "" + " " + rest == " " + rest;
    }
  }

  lemma BlankAtEnd(u: Text, x: string)
    requires u.isSpace(' ')
    ensures u.Fields(x + " ") == u.Fields(x)
  {
    FieldsSplit(u, x, "");
    assert x + " " + "" == x + " ";
  }

  lemma {:induction false} TrimRightFields(u: Text, s: string)
    requires u.Valid()
    ensures u.Fields(u.Kept(u.Lowered(u.TrimRight(s)))) == u.Fields(u.Kept(u.Lowered(s)))
    decreases |s|
  {
    hide Text.Kept, Text.Lowered, Text.Fields;
    if s != "" && u.isSpace(s[|s| - 1]) {
      var n := |s| - 1;
      TrimRightFields(u, s[..n]);
      assert s == s[..n] + [s[n]];
      KeptJoin(u, s[..n], [s[n]]);
      KeptChar(u, s[n]);
      BlankAtEnd(u, u.Kept(u.Lowered(s[..n])));
    }
  }

  /** Trimming first makes no difference. */
  lemma NormalizedFields(u: Text, s: string)
    requires u.Valid()
    ensures u.Normalized(s) == Join(u.Fields(u.Kept(u.Lowered(s))))
  {
    TrimLeftFields(u, s);
    TrimRightFields(u, u.TrimLeft(s));
  }

  lemma {:induction false} FieldsNonEmpty(u: Text, s: string)
    ensures forall i :: 0 <= i < |u.Fields(s)| ==> u.Fields(s)[i] != ""
    decreases |s|
  {
    if s == "" {
    } else if u.isSpace(s[0]) {
      FieldsNonEmpty(u, s[1..]);
    } else {
      FieldsNonEmpty(u, s[u.RunLength(s)..]);
    }
  }

  /** Two texts with a blank between them, when there is something on both sides. */
  function Beside(a: string, b: string): string {
    if a == "" then b else if b == "" then a else a + " " + b
  }

  lemma {:induction false} JoinBeside(x: seq<string>, y: seq<string>)
    requires (forall i :: 0 <= i < |x| ==> x[i] != "") && forall i :: 0 <= i < |y| ==> y[i] != ""
    ensures Join(x + y) == Beside(Join(x), Join(y)) && (Join(x) == "" <==> x == [])
    decreases |x|
  {
    if x == [] {
      assert x + y == y;
    } else {
      assert (x + y)[1..] == x[1..] + y;
      JoinBeside(x[1..], y);
      if |x| == 1 {
        assert x[1..] + y == y;
      }
    }
  }

  /** A space separates: what stands on its two sides normalises apart, with one blank between. */
  lemma NormalizedAtSpace(u: Text, a: string, c: char, b: string)
    requires u.Valid() && u.isSpace(c)
    ensures u.Normalized(a + [c] + b) == Beside(u.Normalized(a), u.Normalized(b))
  {
    NormalizedFields(u, a + [c] + b);
    NormalizedFields(u, a);
    NormalizedFields(u, b);
    KeptJoin(u, a + [c], b);
    KeptJoin(u, a, [c]);
    KeptChar(u, c);
    var x, y := u.Kept(u.Lowered(a)), u.Kept(u.Lowered(b));
    FieldsSplit(u, x, y);
    FieldsNonEmpty(u, x);
    FieldsNonEmpty(u, y);
    JoinBeside(u.Fields(x), u.Fields(y));
  }

  /** Any other character that is no letter or digit is dropped, and its neighbours join. */
  lemma NormalizedDrops(u: Text, a: string, c: char, b: string)
    requires u.Valid() && !u.isSpace(c) && !u.isLetter(u.lower(c)) && !u.isDigit(u.lower(c))
    ensures u.Normalized(a + [c] + b) == u.Normalized(a + b)
  {
    hide Text.Kept, Text.Lowered, Text.Fields, Text.Normalized, Join;
    NormalizedFields(u, a + [c] + b);
    NormalizedFields(u, a + b);
    KeptJoin(u, a + [c], b);
    KeptJoin(u, a, [c]);
    KeptJoin(u, a, b);
    KeptChar(u, c);
    assert u.Kept(u.Lowered(a)) + "" == u.Kept(u.Lowered(a));
  }

  /** Letters and digits are kept, lowered. */
  lemma NormalizedWord(u: Text, w: string)
    requires u.Valid() && forall i :: 0 <= i < |w| ==> u.isLetter(u.lower(w[i])) || u.isDigit(u.lower(w[i]))
    ensures |u.Normalized(w)| == |w| && forall i :: 0 <= i < |w| ==> u.Normalized(w)[i] == u.lower(w[i])
  {
    NormalizedFields(u, w);
    var l := u.Lowered(w);
    KeptOfNormal(u, l);
    if w != "" {
      RunOf(u, l, "");
      assert l + "" == l && l[|l|..] == "" && u.Fields("") == [] && l[..|l|] == l;
      assert u.Fields(l) == [l];
    }
  }
}
