/** Splitting a search query into terms, and the SQLite full-text expression made from them. */
module SearchTerms {
  import opened Types
  import opened Text

  // ---- splitting ----

  /** The splitter between two characters. */
  datatype Splitter = Splitter(terms: seq<string>, current: string, inQuotes: bool)

  function Flush(u: Text, s: Splitter): Splitter {
    if s.current == "" then s else Splitter(s.terms + [u.Trim(s.current)], "", s.inQuotes)
  }

  function Feed(u: Text, s: Splitter, c: char): Splitter {
    if c == '"' then Flush(u, s).(inQuotes := !s.inQuotes)
    else if u.isSpace(c) && !s.inQuotes then Flush(u, s)
    else s.(current := s.current + [c])
  }

  function FeedAll(u: Text, s: Splitter, text: string): Splitter
    decreases |text|
  {
    if text == "" then s else FeedAll(u, Feed(u, s, text[0]), text[1..])
  }

  const START := Splitter([], "", false)

  function Terms(u: Text, query: string): seq<string> {
    Flush(u, FeedAll(u, START, query)).terms
  }

  method SplitSearchTerms(u: Text, query: string) returns (terms: seq<string>)
    ensures terms == Terms(u, query)
  {
    terms := [];
    var current := "";
    var inQuotes := false;
    var i := 0;
    while i < |query|
      invariant 0 <= i <= |query|
      invariant FeedAll(u, Splitter(terms, current, inQuotes), query[i..]) == FeedAll(u, START, query)
    {
      var c := query[i];
      assert query[i..][0] == c && query[i..][1..] == query[i + 1..];
      if c == '"' {
        if current != "" {
          terms := terms + [u.Trim(current)];
          current := "";
        }
        inQuotes := !inQuotes;
      } else if u.isSpace(c) && !inQuotes {
        if current != "" {
          terms := terms + [u.Trim(current)];
          current := "";
        }
      } else {
        current := current + [c];
      }
      i := i + 1;
    }
    if current != "" {
      terms := terms + [u.Trim(current)];
    }
  }

  lemma {:induction false} FeedAllJoin(u: Text, s: Splitter, a: string, b: string)
    ensures FeedAll(u, s, a + b) == FeedAll(u, FeedAll(u, s, a), b)
    decreases |a|
  {
    if a == "" {
      assert a + b == b;
    } else {
      assert (a + b)[0] == a[0] && (a + b)[1..] == a[1..] + b;
      FeedAllJoin(u, Feed(u, s, a[0]), a[1..], b);
    }
  }

  // ---- nothing is lost ----

  /** The characters that are neither spaces nor quotes. */
  function Solid(u: Text, s: string): string {
    if s == "" then "" else Solid(u, s[..|s| - 1]) + if u.isSpace(s[|s| - 1]) || s[|s| - 1] == '"' then ""
        else [s[|s| - 1]]
  }

  function Concat(terms: seq<string>): string {
    if terms == [] then "" else Concat(terms[..|terms| - 1]) + terms[|terms| - 1]
  }

  lemma {:induction false} SolidJoin(u: Text, a: string, b: string)
    ensures Solid(u, a + b) == Solid(u, a) + Solid(u, b)
    decreases |b|
  {
    if b == "" {
      assert a + b == a;
    } else {
      assert (a + b)[..|a + b| - 1] == a + b[..|b| - 1];
      SolidJoin(u, a, b[..|b| - 1]);
    }
  }

  lemma {:induction false} SolidTrimLeft(u: Text, s: string)
    ensures Solid(u, u.TrimLeft(s)) == Solid(u, s)
    decreases |s|
  {
    if s != "" && u.isSpace(s[0]) {
      SolidTrimLeft(u, s[1..]);
      assert s == [s[0]] + s[1..];
      SolidJoin(u, [s[0]], s[1..]);
      assert [s[0]][..0] == "" && Solid(u, [s[0]]) == "";
    }
  }

  lemma {:induction false} SolidTrimRight(u: Text, s: string)
    ensures Solid(u, u.TrimRight(s)) == Solid(u, s)
    decreases |s|
  {
    if s != "" && u.isSpace(s[|s| - 1]) {
      SolidTrimRight(u, s[..|s| - 1]);
    }
  }

  lemma SolidTrim(u: Text, s: string)
    ensures Solid(u, u.Trim(s)) == Solid(u, s)
  {
    SolidTrimLeft(u, s);
    SolidTrimRight(u, u.TrimLeft(s));
  }

  /** What the splitter has taken in so far. */
  function Held(u: Text, s: Splitter): string {
    Solid(u, Concat(s.terms)) + Solid(u, s.current)
  }

  lemma FlushHolds(u: Text, s: Splitter)
    ensures Held(u, Flush(u, s)) == Held(u, s)
    ensures Flush(u, s).current == ""
  {
    if s.current != "" {
      var term := u.Trim(s.current);
      assert (s.terms + [term])[..|s.terms|] == s.terms;
      SolidJoin(u, Concat(s.terms), term);
      SolidTrim(u, s.current);
    }
  }

  lemma FeedHolds(u: Text, s: Splitter, c: char)
    ensures Held(u, Feed(u, s, c)) == Held(u, s) + Solid(u, [c])
  {
    SolidOne(u, c);
    hide Solid, Concat, Flush;
    var f := Flush(u, s);
    FlushHolds(u, s);
    if c == '"' {
      assert Feed(u, s, c) == f.(inQuotes := !s.inQuotes);
      assert Held(u, f.(inQuotes := !s.inQuotes)) == Held(u, f) == Held(u, f) + "";
    } else if u.isSpace(c) && !s.inQuotes {
      assert Held(u, f) == Held(u, f) + "";
    } else {
      SolidJoin(u, s.current, [c]);
      var terms, current := Solid(u, Concat(s.terms)), Solid(u, s.current);
      assert terms + (current + Solid(u, [c])) == terms + current + Solid(u, [c]);
    }
  }

  lemma SolidOne(u: Text, c: char)
    ensures Solid(u, [c]) == if u.isSpace(c) || c == '"' then "" else [c]
  {
    assert [c][..0] == "";
  }

  lemma {:induction false} FeedAllHolds(u: Text, s: Splitter, text: string)
    ensures Held(u, FeedAll(u, s, text)) == Held(u, s) + Solid(u, text)
    decreases |text|
  {
    if text != "" {
      hide Held, Feed;
      FeedHolds(u, s, text[0]);
      FeedAllHolds(u, Feed(u, s, text[0]), text[1..]);
      assert text == [text[0]] + text[1..];
      SolidJoin(u, [text[0]], text[1..]);
    }
  }

  /** The terms carry exactly the query's characters other than spaces and quotes, in order. */
  lemma TermsConserve(u: Text, query: string)
    ensures Solid(u, Concat(Terms(u, query))) == Solid(u, query)
  {
    FeedAllHolds(u, START, query);
    FlushHolds(u, FeedAll(u, START, query));
    hide FeedAll, Flush;
    var done := Flush(u, FeedAll(u, START, query));
    assert Solid(u, "") == "" && Concat([]) == "";
    assert Held(u, START) == "" + "" == "";
    assert "" + Solid(u, query) == Solid(u, query);
    assert Held(u, done) == Solid(u, Concat(done.terms)) + "" == Solid(u, Concat(done.terms));
    assert Terms(u, query) == done.terms;
  }

  // ---- the shape of terms ----

  predicate NoQuote(s: string) {
    forall i :: 0 <= i < |s| ==> s[i] != '"'
  }

  /** No quote inside and no space at either end. */
  ghost predicate IsTerm(u: Text, s: string) {
    NoQuote(s) && u.Trim(s) == s
  }

  ghost predicate Clean(u: Text, s: Splitter) {
    NoQuote(s.current) && forall k :: 0 <= k < |s.terms| ==> IsTerm(u, s.terms[k])
  }

  lemma {:induction false} TrimNoQuote(u: Text, s: string)
    requires NoQuote(s)
    ensures NoQuote(u.TrimLeft(s)) && NoQuote(u.TrimRight(s))
    decreases |s|
  {
    if s != "" {
      TrimNoQuote(u, s[1..]);
      TrimNoQuote(u, s[..|s| - 1]);
    }
  }

  lemma TrimIsTerm(u: Text, s: string)
    requires NoQuote(s)
    ensures IsTerm(u, u.Trim(s))
  {
    TrimNoQuote(u, s);
    TrimNoQuote(u, u.TrimLeft(s));
    TrimTwice(u, s);
  }

  lemma TrimTwice(u: Text, s: string)
    ensures u.Trim(u.Trim(s)) == u.Trim(s)
  {
    TrimLeftDone(u, s);
    TrimLeftThenRight(u, u.TrimLeft(s));
    TrimRightDone(u, u.TrimLeft(s));
  }

  lemma {:induction false} FeedAllClean(u: Text, s: Splitter, text: string)
    requires Clean(u, s)
    ensures Clean(u, FeedAll(u, s, text))
    decreases |text|
  {
    if text != "" {
      FlushClean(u, s);
      FeedAllClean(u, Feed(u, s, text[0]), text[1..]);
    }
  }

  lemma FlushClean(u: Text, s: Splitter)
    requires Clean(u, s)
    ensures Clean(u, Flush(u, s))
  {
    TrimIsTerm(u, s.current);
  }

  lemma TermsAreTerms(u: Text, query: string)
    ensures forall k :: 0 <= k < |Terms(u, query)| ==> IsTerm(u, Terms(u, query)[k])
  {
    FeedAllClean(u, START, query);
    FlushClean(u, FeedAll(u, START, query));
  }

  // ---- printing terms and splitting again ----

  /** The terms that are not empty: a quoted run of spaces leaves an empty one. */
  function NonEmpty(terms: seq<string>): seq<string> {
    if terms == [] then []
    else
      var n := |terms| - 1;
      NonEmpty(terms[..n]) + if terms[n] == "" then [] else [terms[n]]
  }

  /** Quoted terms separated by blanks. */
  function Print(terms: seq<string>): string {
    if terms == [] then ""
    else if |terms| == 1 then "\"" + terms[0] + "\""
    else "\"" + terms[0] + "\"" + " " + Print(terms[1..])
  }

  lemma {:induction false} FeedQuoted(u: Text, s: Splitter, w: string)
    requires s.inQuotes && NoQuote(w)
    ensures FeedAll(u, s, w) == s.(current := s.current + w)
    decreases |w|
  {
    if w == "" {
      assert s.current + w == s.current;
    } else {
      FeedQuoted(u, Feed(u, s, w[0]), w[1..]);
      assert s.current + [w[0]] + w[1..] == s.current + w;
    }
  }

  lemma FeedOneTerm(u: Text, terms: seq<string>, w: string)
    requires IsTerm(u, w) && w != ""
    ensures FeedAll(u, Splitter(terms, "", false), "\"" + w + "\"") == Splitter(terms + [w], "", false)
  {
    var open := Splitter(terms, "", true);
    assert "\"" + w + "\"" == "\"" + (w + "\"");
    FeedAllJoin(u, Splitter(terms, "", false), "\"", w + "\"");
    assert FeedAll(u, Splitter(terms, "", false), "\"") == open;
    FeedAllJoin(u, open, w, "\"");
    FeedQuoted(u, open, w);
    assert "" + w == w;
    FeedOne(u, open.(current := w), '"');
  }

  lemma FeedOne(u: Text, s: Splitter, c: char)
    ensures FeedAll(u, s, [c]) == Feed(u, s, c)
  {
    assert [c][1..] == "";
  }

  lemma {:induction false} FeedPrinted(u: Text, done: seq<string>, terms: seq<string>)
    requires u.Valid() && forall k :: 0 <= k < |terms| ==> IsTerm(u, terms[k]) && terms[k] != ""
    ensures FeedAll(u, Splitter(done, "", false), Print(terms)) == Splitter(done + terms, "", false)
    decreases |terms|
  {
    hide Feed, IsTerm;
    if terms == [] {
      assert done + terms == done;
    } else {
      var first := "\"" + terms[0] + "\"";
      var next := Splitter(done + [terms[0]], "", false);
      FeedOneTerm(u, done, terms[0]);
      assert done + terms == done + [terms[0]] + terms[1..];
      if |terms| > 1 {
        FeedPrinted(u, done + [terms[0]], terms[1..]);
        assert Print(terms) == first + (" " + Print(terms[1..]));
        FeedAllJoin(u, Splitter(done, "", false), first, " " + Print(terms[1..]));
        FeedAllJoin(u, next, " ", Print(terms[1..]));
        FeedBlank(u, next);
      } else {
        assert terms[1..] == [];
      }
    }
  }

  lemma FeedBlank(u: Text, s: Splitter)
    requires u.Valid() && s.current == "" && !s.inQuotes
    ensures FeedAll(u, s, " ") == s
  {
    FeedOne(u, s, ' ');
  }

  lemma {:induction false} NonEmptyTerms(u: Text, terms: seq<string>)
    requires forall k :: 0 <= k < |terms| ==> IsTerm(u, terms[k])
    ensures forall k :: 0 <= k < |NonEmpty(terms)| ==> IsTerm(u, NonEmpty(terms)[k]) && NonEmpty(terms)[k] != ""
    decreases |terms|
  {
    hide IsTerm;
    if terms != [] {
      NonEmptyTerms(u, terms[..|terms| - 1]);
    }
  }

  /** Printing a query's terms and splitting the result gives the same terms. */
  lemma SplitPrinted(u: Text, query: string)
    requires u.Valid()
    ensures Terms(u, Print(NonEmpty(Terms(u, query)))) == NonEmpty(Terms(u, query))
  {
    hide Print, FeedAll, IsTerm;
    TermsAreTerms(u, query);
    NonEmptyTerms(u, Terms(u, query));
    FeedPrinted(u, [], NonEmpty(Terms(u, query)));
    assert [] + NonEmpty(Terms(u, query)) == NonEmpty(Terms(u, query));
  }

  // ---- the full-text expression ----

  /** Quotes doubled, as inside a quoted string. */
  function Escaped(s: string): string {
    if s == "" then "" else (if s[0] == '"' then "\"\"" else [s[0]]) + Escaped(s[1..])
  }

  function Conjunction(parts: seq<string>): string {
    if parts == [] then ""
    else if |parts| == 1 then parts[0]
    else parts[0] + " AND " + Conjunction(parts[1..])
  }

  function Quoted(terms: seq<string>): seq<string> {
    seq(|terms|, i requires 0 <= i < |terms| => "\"" + Escaped(terms[i]) + "\"")
  }

  method SqliteFtsQuery(u: Text, query: string) returns (r: string)
    ensures r == FtsQuery(u, query)
  {
    var terms := SplitSearchTerms(u, query);
    if |terms| == 0 {
      return "\"\"";
    }
    var parts: seq<string> := [];
    var i := 0;
    while i < |terms|
      invariant 0 <= i <= |terms| && parts == Quoted(NonEmpty(terms[..i]))
    {
      assert terms[..i + 1][..i] == terms[..i];
      if terms[i] != "" {
        parts := parts + ["\"" + Escaped(terms[i]) + "\""];
      }
      i := i + 1;
    }
    assert terms[..i] == terms;
    r := Conjunction(parts);
  }

  /** Read a quoted string whose opening quote is behind us: its content and what follows the closing one. */
  function ReadString(s: string): Option<(string, string)>
    decreases |s|
  {
    if s == "" then None
    else if s[0] != '"' then
      match ReadString(s[1..])
      case None => None
      case Some(r) => Some(([s[0]] + r.0, r.1))
    else if |s| > 1 && s[1] == '"' then
      match ReadString(s[2..])
      case None => None
      case Some(r) => Some((['"'] + r.0, r.1))
    else Some(("", s[1..]))
  }

  lemma {:induction false} ReadStringShorter(s: string)
    ensures ReadString(s).Some? ==> |ReadString(s).value.1| < |s|
    decreases |s|
  {
    if s == "" {
    } else if s[0] != '"' {
      ReadStringShorter(s[1..]);
    } else if |s| > 1 && s[1] == '"' {
      ReadStringShorter(s[2..]);
    }
  }

  /** The grammar of full-text expressions used here: quoted strings joined by AND. */
  function ParseConjunction(s: string): Option<seq<string>>
    decreases |s|
  {
    if s == "" || s[0] != '"' then None
    else
      ReadStringShorter(s[1..]);
      match ReadString(s[1..])
      case None => None
      case Some(r) =>
        if r.1 == "" then Some([r.0])
        else if " AND " <= r.1 then
          (match ParseConjunction(r.1[5..])
           case None => None
           case Some(rest) => Some([r.0] + rest))
        else None
  }

  lemma {:induction false} ReadBack(term: string, rest: string)
    requires rest == "" || rest[0] != '"'
    ensures ReadString(Escaped(term) + "\"" + rest) == Some((term, rest))
    decreases |term|
  {
    var s := Escaped(term) + "\"" + rest;
    if term == "" {
      assert s == "\"" + rest;
      assert s[1..] == rest;
    } else {
      ReadBack(term[1..], rest);
      var tail := Escaped(term[1..]) + "\"" + rest;
      assert term == [term[0]] + term[1..];
      if term[0] == '"' {
        assert s == "\"\"" + tail;
        assert s[2..] == tail;
      } else {
        assert s == [term[0]] + tail;
        assert s[1..] == tail;
      }
    }
  }

  /** Any non-empty list of terms, quotes included, reads back from its expression. */
  lemma {:induction false} ParsePrinted(terms: seq<string>)
    requires terms != []
    ensures ParseConjunction(Conjunction(Quoted(terms))) == Some(terms)
    decreases |terms|
  {
    hide Escaped, ReadString;
    QuotedParts(terms);
    if |terms| == 1 {
      ReadBack(terms[0], "");
      ParseStep(Escaped(terms[0]) + "\"" + "", terms[0], "");
      assert terms == [terms[0]];
    } else {
      var rest := " AND " + Conjunction(Quoted(terms[1..]));
      ParsePrinted(terms[1..]);
      ReadBack(terms[0], rest);
      ParseStep(Escaped(terms[0]) + "\"" + rest, terms[0], rest);
      assert rest[5..] == Conjunction(Quoted(terms[1..]));
      assert terms == [terms[0]] + terms[1..];
    }
  }

  lemma QuotedParts(terms: seq<string>)
    requires terms != []
    ensures |terms| == 1 ==> Conjunction(Quoted(terms)) == "\"" + (Escaped(terms[0]) + "\"" + "")
    ensures |terms| > 1 ==>
        Conjunction(Quoted(terms)) == "\"" + (Escaped(terms[0]) + "\"" + (" AND " + Conjunction(Quoted(terms[1..]))))
  {
    hide Escaped;
    assert Quoted(terms)[1..] == Quoted(terms[1..]);
  }

  /** One quoted string at the head of an expression. */
  lemma ParseStep(s: string, term: string, rest: string)
    requires ReadString(s) == Some((term, rest))
    ensures ParseConjunction("\"" + s)
            == if rest == "" then Some([term])
               else if " AND " <= rest then
                 (match ParseConjunction(rest[5..]) case None => None case Some(more) => Some([term] + more))
               else None
  {
    hide ReadString;
    assert ("\"" + s)[1..] == s;
  }

  /** What a query becomes for SQLite. */
  function FtsQuery(u: Text, query: string): string {
    if Terms(u, query) == [] then "\"\"" else Conjunction(Quoted(NonEmpty(Terms(u, query))))
  }

  // ---- which queries have terms ----

  function Quotes(s: string): nat {
    if s == "" then 0 else Quotes(s[..|s| - 1]) + if s[|s| - 1] == '"' then 1 else 0
  }

  /** The character stands between a pair of quotes, or after a quote that is never closed. */
  predicate Enclosed(query: string, i: nat) {
    i < |query| && query[i] != '"' && Quotes(query[..i]) % 2 == 1
  }

  /** The splitter takes the character into a term. */
  predicate Taken(u: Text, query: string, i: nat) {
    i < |query| && query[i] != '"' && (Enclosed(query, i) || !u.isSpace(query[i]))
  }

  /** The splitter is inside quotes after an odd number of them, and has started a term once it kept a character. */
  lemma {:induction false} SplitterState(u: Text, query: string)
    ensures var s := FeedAll(u, START, query);
            && (s.inQuotes <==> Quotes(query) % 2 == 1)
            && (s.terms != [] || s.current != "" <==> exists i: nat :: Taken(u, query, i))
    decreases |query|
  {
    if query != "" {
      var n := |query| - 1;
      SplitterState(u, query[..n]);
      assert query == query[..n] + [query[n]];
      FeedAllJoin(u, START, query[..n], [query[n]]);
      FeedOne(u, FeedAll(u, START, query[..n]), query[n]);
      hide FeedAll, Quotes;
      QuotesOne(query);
      TakenSnoc(u, query);
    }
  }

  lemma QuotesOne(query: string)
    requires query != ""
    ensures Quotes(query) == Quotes(query[..|query| - 1]) + if query[|query| - 1] == '"' then 1 else 0
  {
  }

  lemma TakenSnoc(u: Text, query: string)
    requires query != ""
    ensures var n := |query| - 1;
            (exists i: nat :: Taken(u, query, i)) <==> (exists i: nat :: Taken(u, query[..n], i)) || Taken(u, query, n)
  {
    hide Quotes;
    var n := |query| - 1;
    forall i: nat | i < n
      ensures Taken(u, query, i) <==> Taken(u, query[..n], i)
    {
      assert query[..n][..i] == query[..i];
    }
  }

  lemma TermsIff(u: Text, query: string)
    ensures Terms(u, query) != [] <==> exists i: nat :: Taken(u, query, i)
  {
    hide FeedAll, Taken;
    SplitterState(u, query);
  }

  /** A term starts with no space, so only the empty one is without solid characters. */
  lemma TermSolid(u: Text, s: string)
    requires IsTerm(u, s)
    ensures Solid(u, s) == "" <==> s == ""
  {
    if s != "" {
      TrimLeftDone(u, u.TrimLeft(s));
      TrimLeftDone(u, s);
      TrimLeftThenRight(u, u.TrimLeft(s));
      assert !u.isSpace(s[0]);
      assert s == [s[0]] + s[1..];
      SolidJoin(u, [s[0]], s[1..]);
      SolidOne(u, s[0]);
    }
  }

  lemma {:induction false} NonEmptyIffSolid(u: Text, terms: seq<string>)
    requires forall k :: 0 <= k < |terms| ==> IsTerm(u, terms[k])
    ensures NonEmpty(terms) == [] <==> Solid(u, Concat(terms)) == ""
    decreases |terms|
  {
    hide IsTerm;
    if terms != [] {
      var n := |terms| - 1;
      NonEmptyIffSolid(u, terms[..n]);
      SolidJoin(u, Concat(terms[..n]), terms[n]);
      TermSolid(u, terms[n]);
    }
  }

  lemma SpacesOnly(u: Text, query: string)
    ensures Solid(u, query) == "" <==> forall i :: 0 <= i < |query| ==> u.isSpace(query[i]) || query[i] == '"'
    decreases |query|
  {
    if query != "" {
      SpacesOnly(u, query[..|query| - 1]);
    }
  }

  // ---- splitting, piece by piece ----

  lemma {:induction false} TermsBefore(u: Text, before: seq<string>, s: Splitter, text: string)
    ensures var plain := FeedAll(u, s, text);
            FeedAll(u, s.(terms := before + s.terms), text) == plain.(terms := before + plain.terms)
    decreases |text|
  {
    if text != "" {
      var next := Feed(u, s, text[0]);
      assert before + (s.terms + [u.Trim(s.current)]) == before + s.terms + [u.Trim(s.current)];
      assert Feed(u, s.(terms := before + s.terms), text[0]) == next.(terms := before + next.terms);
      hide Feed;
      TermsBefore(u, before, next, text[1..]);
    }
  }

  /** Once a term has ended outside quotes, the rest of the query is split on its own. */
  lemma TermsAfter(u: Text, before: seq<string>, rest: string)
    ensures Flush(u, FeedAll(u, Splitter(before, "", false), rest)).terms == before + Terms(u, rest)
  {
    TermsBefore(u, before, START, rest);
    assert before + [] == before;
    var plain := FeedAll(u, START, rest);
    assert before + (plain.terms + [u.Trim(plain.current)]) == before + plain.terms + [u.Trim(plain.current)];
  }

  lemma OutsideQuotes(u: Text, a: string)
    requires Quotes(a) % 2 == 0
    ensures var s := FeedAll(u, START, a); !s.inQuotes && Flush(u, s) == Splitter(Terms(u, a), "", false)
  {
    hide FeedAll, Quotes;
    SplitterState(u, a);
  }

  /** A space outside quotes ends the term before it. */
  lemma TermsAtSpace(u: Text, a: string, c: char, b: string)
    requires u.isSpace(c) && c != '"' && Quotes(a) % 2 == 0
    ensures Terms(u, a + [c] + b) == Terms(u, a) + Terms(u, b)
  {
    OutsideQuotes(u, a);
    FeedAllJoin(u, START, a + [c], b);
    FeedAllJoin(u, START, a, [c]);
    FeedOne(u, FeedAll(u, START, a), c);
    hide FeedAll;
    TermsAfter(u, Terms(u, a), b);
  }

  /** A pair of quotes outside quotes makes one term of what it encloses, trimmed, whatever stands next to it. */
  lemma TermsAtQuotes(u: Text, a: string, w: string, b: string)
    requires Quotes(a) % 2 == 0 && NoQuote(w)
    ensures Terms(u, a + "\"" + w + "\"" + b) == Terms(u, a) + (if w == "" then [] else [u.Trim(w)]) + Terms(u, b)
  {
    var quoted := Splitter(Terms(u, a), "", true);
    OpenQuote(u, a);
    FeedAllJoin(u, START, a + "\"" + w + "\"", b);
    FeedAllJoin(u, START, a + "\"" + w, "\"");
    FeedAllJoin(u, START, a + "\"", w);
    FeedQuoted(u, quoted, w);
    assert "" + w == w;
    FeedOne(u, quoted.(current := w), '"');
    hide FeedAll;
    var closed := Terms(u, a) + if w == "" then [] else [u.Trim(w)];
    assert Feed(u, quoted.(current := w), '"') == Splitter(closed, "", false);
    TermsAfter(u, closed, b);
  }

  /** A quote that is never closed encloses the rest of the query. */
  lemma TermsUnclosed(u: Text, a: string, w: string)
    requires Quotes(a) % 2 == 0 && NoQuote(w)
    ensures Terms(u, a + "\"" + w) == Terms(u, a) + if w == "" then [] else [u.Trim(w)]
  {
    var quoted := Splitter(Terms(u, a), "", true);
    OpenQuote(u, a);
    FeedAllJoin(u, START, a + "\"", w);
    FeedQuoted(u, quoted, w);
    assert "" + w == w;
    hide FeedAll;
  }

  lemma OpenQuote(u: Text, a: string)
    requires Quotes(a) % 2 == 0
    ensures FeedAll(u, START, a + "\"") == Splitter(Terms(u, a), "", true)
  {
    OutsideQuotes(u, a);
    FeedAllJoin(u, START, a, "\"");
    FeedOne(u, FeedAll(u, START, a), '"');
    hide FeedAll;
  }

  /** Neither a space nor a quote. */
  predicate IsRun(u: Text, w: string) {
    forall i :: 0 <= i < |w| ==> !u.isSpace(w[i]) && w[i] != '"'
  }

  lemma {:induction false} FeedRun(u: Text, s: Splitter, w: string)
    requires IsRun(u, w)
    ensures FeedAll(u, s, w) == s.(current := s.current + w)
    decreases |w|
  {
    if w == "" {
      assert s.current + w == s.current;
    } else {
      FeedRun(u, Feed(u, s, w[0]), w[1..]);
      assert s.current + [w[0]] + w[1..] == s.current + w;
    }
  }

  /** A run of other characters is one term. */
  lemma TermsOfRun(u: Text, w: string)
    requires IsRun(u, w)
    ensures Terms(u, w) == if w == "" then [] else [w]
    ensures Quotes(w) == 0
  {
    FeedRun(u, START, w);
    assert "" + w == w;
    NoQuotes(u, w);
    if w != "" {
      assert u.TrimLeft(w) == w && u.TrimRight(w) == w;
    }
  }

  lemma {:induction false} NoQuotes(u: Text, w: string)
    requires IsRun(u, w)
    ensures Quotes(w) == 0
    decreases |w|
  {
    if w != "" {
      NoQuotes(u, w[..|w| - 1]);
    }
  }

  lemma {:induction false} EscapedRun(u: Text, w: string)
    requires IsRun(u, w)
    ensures Escaped(w) == w
    decreases |w|
  {
    if w != "" {
      EscapedRun(u, w[1..]);
      assert w == [w[0]] + w[1..];
    }
  }

  lemma NonEmptyOne(w: string)
    ensures NonEmpty([w]) == if w == "" then [] else [w]
  {
    assert [w][..0] == [];
  }

  /** Leaving out the empty terms keeps every other one in its place. */
  lemma {:induction false} NonEmptyJoin(a: seq<string>, b: seq<string>)
    ensures NonEmpty(a + b) == NonEmpty(a) + NonEmpty(b)
    decreases |b|
  {
    if b == [] {
      assert a + b == a;
    } else {
      NonEmptyJoin(a, b[..|b| - 1]);
      assert (a + b)[..|a + b| - 1] == a + b[..|b| - 1];
    }
  }

  /** Two words become two quoted strings joined by AND, with nothing lost. */
  lemma TwoWords(u: Text, a: string, c: char, b: string)
    requires a != "" && b != "" && IsRun(u, a) && IsRun(u, b) && u.isSpace(c) && c != '"'
    ensures Terms(u, a + [c] + b) == [a, b]
    ensures FtsQuery(u, a + [c] + b) == "\"" + a + "\" AND \"" + b + "\""
  {
    hide Terms, Quotes;
    TermsOfRun(u, a);
    TermsOfRun(u, b);
    TermsAtSpace(u, a, c, b);
    assert [a] + [b] == [a, b];
    NonEmptyJoin([a], [b]);
    NonEmptyOne(a);
    NonEmptyOne(b);
    EscapedRun(u, a);
    EscapedRun(u, b);
    hide Escaped, NonEmpty;
    assert Quoted([a, b])[1..] == ["\"" + b + "\""];
    assert Conjunction(Quoted([a, b])) == "\"" + a + "\"" + " AND " + ("\"" + b + "\"");
  }

  /** The expression parses back to exactly the query's non-empty terms whenever there is one.  A query of only
      spaces and quotes becomes the empty phrase, unless one of its characters stands between quotes: then it
      becomes no expression at all. */
  lemma FtsQueryParses(u: Text, query: string)
    ensures Solid(u, query) != "" ==>
              NonEmpty(Terms(u, query)) != [] && ParseConjunction(FtsQuery(u, query)) == Some(NonEmpty(Terms(u, query)))
    ensures Terms(u, query) == [] ==> ParseConjunction(FtsQuery(u, query)) == Some([""])
    ensures ParseConjunction(FtsQuery(u, query)).None?
            <==> Solid(u, query) == "" && exists i: nat :: Enclosed(query, i)
  {
    hide ParseConjunction, Quoted, Conjunction, Terms, Solid, Enclosed, IsTerm;
    TermsAreTerms(u, query);
    NonEmptyIffSolid(u, Terms(u, query));
    TermsConserve(u, query);
    if Solid(u, query) != "" {
      ParsePrinted(NonEmpty(Terms(u, query)));
    } else {
      EdgeExpressions();
      TermsIff(u, query);
      SpacesOnly(u, query);
      forall i: nat
        ensures Taken(u, query, i) <==> Enclosed(query, i)
      {
        TakenSpaces(u, query, i);
      }
    }
  }

  lemma TakenSpaces(u: Text, query: string, i: nat)
    requires forall j :: 0 <= j < |query| ==> u.isSpace(query[j]) || query[j] == '"'
    ensures Taken(u, query, i) <==> Enclosed(query, i)
  {
    hide Quotes;
  }

  lemma EdgeExpressions()
    ensures ParseConjunction(Conjunction(Quoted([]))).None?
    ensures ParseConjunction("\"\"") == Some([""])
  {
    assert "\"\""[1..] == "\"";
    assert ReadString("\"") == Some(("", ""));
  }
}
