/**
 * The formula search endpoint: photos of a subject (and optionally of one
 * exam number), narrowed by a full-text search. The query string handed to
 * the database is concrete; whether the database accepts it, and whether a
 * photo's search vector matches it, are decided by the database and are
 * parameters here.
 */
module QueryViews {
  import opened Outcomes
  import opened Text
  import opened Models

  // ----- the raw text-search query -----

  /** One word of the search term as a quoted lexeme. */
  function Quote(w: string): string {
    "'" + w + "'"
  }

  function QuoteAll(ws: seq<string>): (qs: seq<string>)
    ensures |qs| == |ws|
    ensures forall i :: 0 <= i < |ws| ==> qs[i] == Quote(ws[i])
  {
    if ws == [] then [] else [Quote(ws[0])] + QuoteAll(ws[1..])
  }

  /** The raw query of a search term: its words, each quoted, joined by " & ". */
  function SearchQuery(term: string): string {
    Join(QuoteAll(Words(term)), " & ")
  }

  // ----- reading a raw query back -----

  /** The two characters tsquery treats specially inside a quoted lexeme. */
  predicate IsQuoteOrBackslash(c: char) {
    c == '\'' || c == '\\'
  }

  /** A word quoting leaves intact: it holds no quote and no backslash. */
  predicate PlainWord(w: string) {
    forall i :: 0 <= i < |w| ==> !IsQuoteOrBackslash(w[i])
  }

  predicate AllPlain(ws: seq<string>) {
    forall i :: 0 <= i < |ws| ==> PlainWord(ws[i])
  }

  function PrependChar(c: char, r: Option<(string, string)>): Option<(string, string)> {
    match r
    case None => None
    case Some(read) => Some(([c] + read.0, read.1))
  }

  /**
   * The body of a quoted tsquery lexeme, read after its opening quote: a
   * backslash takes the next character literally, two quotes stand for one,
   * and a single quote closes the lexeme. Gives the lexeme and the text after
   * the closing quote, or None when the text ends inside the lexeme.
   */
  function ReadQuotedBody(s: string): (r: Option<(string, string)>)
    ensures r.Some? ==> |r.value.0| + |r.value.1| < |s|
    decreases |s|
  {
    if s == [] then None
    else if s[0] == '\\' then
      if |s| == 1 then None else PrependChar(s[1], ReadQuotedBody(s[2..]))
    else if s[0] == '\'' then
      if |s| > 1 && s[1] == '\'' then PrependChar('\'', ReadQuotedBody(s[2..]))
      else Some(([], s[1..]))
    else PrependChar(s[0], ReadQuotedBody(s[1..]))
  }

  /** A token that is exactly one quoted lexeme, read by tsquery's quoting rules. */
  function ReadLexeme(t: string): Option<string> {
    if |t| == 0 || t[0] != '\'' then None
    else
      match ReadQuotedBody(t[1..])
      case None => None
      case Some(read) => if read.1 == [] then Some(read.0) else None
  }

  /**
   * The lexemes of a conjunction, given its whitespace-separated tokens:
   * quoted lexemes at even positions, "&" between them, nothing dangling.
   */
  function Lexemes(tokens: seq<string>): Option<seq<string>>
    decreases |tokens|
  {
    if tokens == [] then Some([])
    else
      match ReadLexeme(tokens[0])
      case None => None
      case Some(l) =>
        if |tokens| == 1 then Some([l])
        else if |tokens| == 2 || tokens[1] != "&" then None
        else
          match Lexemes(tokens[2..])
          case None => None
          case Some(rest) => Some([l] + rest)
  }

  /**
   * A raw query read back into the lexemes tsquery takes from it, when it is
   * a conjunction of whole quoted lexemes; anything else, including queries
   * with weight or prefix markers that tsquery also accepts, gives None.
   */
  function ParseSearchQuery(q: string): Option<seq<string>> {
    Lexemes(Words(q))
  }

  /** The tokens of lexemes joined by " & " when the query is split on whitespace. */
  function Interleaved(qs: seq<string>): seq<string>
    decreases |qs|
  {
    if |qs| <= 1 then qs else [qs[0], "&"] + Interleaved(qs[1..])
  }

  lemma {:induction false} JoinInterleaved(qs: seq<string>)
    ensures Join(qs, " & ") == Join(Interleaved(qs), " ")
    decreases |qs|
  {
    if |qs| > 1 {
      JoinInterleaved(qs[1..]);
      var rest := Interleaved(qs[1..]);
      assert |rest| >= 1;
      var t := [qs[0], "&"] + rest;
      assert t[1..] == ["&"] + rest;
      assert (["&"] + rest)[1..] == rest;
      assert Join(["&"] + rest, " ") == "&" + " " + Join(rest, " ");
      assert Join(t, " ") == qs[0] + " " + ("&" + " " + Join(rest, " "));
      assert qs[0] + " & " + Join(qs[1..], " & ") == qs[0] + " " + ("&" + " " + Join(rest, " "));
    }
  }

  lemma {:induction false} InterleavedWords(qs: seq<string>)
    requires forall i :: 0 <= i < |qs| ==> IsWord(qs[i])
    ensures forall i :: 0 <= i < |Interleaved(qs)| ==> IsWord(Interleaved(qs)[i])
    decreases |qs|
  {
    if |qs| > 1 {
      InterleavedWords(qs[1..]);
      var rest := Interleaved(qs[1..]);
      assert IsWord("&");
      forall i | 0 <= i < |Interleaved(qs)| ensures IsWord(Interleaved(qs)[i]) {
        if i >= 2 {
          assert Interleaved(qs)[i] == rest[i - 2];
        }
      }
    }
  }

  /** A plain word followed by the closing quote reads back as itself. */
  lemma {:induction false} ReadPlainBody(w: string)
    requires PlainWord(w)
    ensures ReadQuotedBody(w + "'") == Some((w, ""))
    decreases |w|
  {
    if w != [] {
      var s := w + "'";
      assert s[0] == w[0] && !IsQuoteOrBackslash(w[0]);
      assert s[1..] == w[1..] + "'";
      ReadPlainBody(w[1..]);
      HeadTail(w);
    }
  }

  /** A word that reads back as itself holds no quote and no backslash. */
  lemma {:induction false} ReadBodyPlain(w: string)
    requires ReadQuotedBody(w + "'") == Some((w, ""))
    ensures PlainWord(w)
    decreases |w|
  {
    if w != [] {
      var s := w + "'";
      assert s[0] == w[0];
      if IsQuoteOrBackslash(w[0]) {
        // an escape or a doubled quote turns two characters into one, and a
        // single quote ends the lexeme before the word does
        assert false;
      } else {
        assert s[1..] == w[1..] + "'";
        HeadTail(w);
        assert ReadQuotedBody(w[1..] + "'") == Some((w[1..], ""));
        ReadBodyPlain(w[1..]);
      }
    }
  }

  /** A quoted word reads back as itself exactly when it holds no quote and no backslash. */
  lemma QuoteReadsBack(w: string)
    ensures ReadLexeme(Quote(w)) == Some(w) <==> PlainWord(w)
  {
    var q := Quote(w);
    assert q[1..] == w + "'";
    if PlainWord(w) {
      ReadPlainBody(w);
    }
    if ReadLexeme(q) == Some(w) {
      ReadBodyPlain(w);
    }
  }

  lemma QuoteWord(w: string)
    requires IsWord(w)
    ensures IsWord(Quote(w))
  {
    var q := Quote(w);
    forall i | 0 <= i < |q| ensures !IsWhitespace(q[i]) {
      if 0 < i < |q| - 1 {
        assert q[i] == w[i - 1];
      }
    }
  }

  /** Reading a token, then "&", then a conjunction. */
  lemma LexemesCons(q: string, rest: seq<string>)
    requires |rest| >= 1
    ensures Lexemes([q, "&"] + rest) ==
      if ReadLexeme(q).Some? && Lexemes(rest).Some? then Some([ReadLexeme(q).value] + Lexemes(rest).value) else None
  {
    var t := [q, "&"] + rest;
    assert t[0] == q && t[1] == "&" && t[2..] == rest;
  }

  lemma InterleavedCons(qs: seq<string>)
    requires |qs| > 1
    ensures Interleaved(qs) == [qs[0], "&"] + Interleaved(qs[1..])
    ensures |Interleaved(qs[1..])| >= 1
  {
  }

  lemma QuoteAllCons(ws: seq<string>)
    requires |ws| > 1
    ensures |QuoteAll(ws)| > 1
    ensures QuoteAll(ws)[0] == Quote(ws[0]) && QuoteAll(ws)[1..] == QuoteAll(ws[1..])
  {
  }

  /** One step of the induction: a word in front of a conjunction. */
  lemma LexemesOfInterleavedStep(ws: seq<string>)
    requires |ws| > 1
    ensures Lexemes(Interleaved(QuoteAll(ws))) == Some(ws)
        <==> PlainWord(ws[0]) && Lexemes(Interleaved(QuoteAll(ws[1..]))) == Some(ws[1..])
  {
    var qs := QuoteAll(ws);
    QuoteAllCons(ws);
    QuoteReadsBack(ws[0]);
    InterleavedCons(qs);
    LexemesCons(qs[0], Interleaved(qs[1..]));
    HeadTail(ws);
    var r := Lexemes(Interleaved(qs));
    if r == Some(ws) {
      var l := ReadLexeme(qs[0]).value;
      var t := Lexemes(Interleaved(qs[1..])).value;
      assert ([l] + t)[0] == l && ([l] + t)[1..] == t;
    }
  }

  lemma HeadTail<T>(s: seq<T>)
    requires |s| > 0
    ensures [s[0]] + s[1..] == s
  {
  }

  lemma {:induction false} LexemesOfInterleaved(ws: seq<string>)
    ensures Lexemes(Interleaved(QuoteAll(ws))) == Some(ws) <==> AllPlain(ws)
    decreases |ws|
  {
    if |ws| == 1 {
      QuoteReadsBack(ws[0]);
      assert QuoteAll(ws) == [Quote(ws[0])];
      assert ws == [ws[0]];
    } else if |ws| > 1 {
      LexemesOfInterleaved(ws[1..]);
      LexemesOfInterleavedStep(ws);
      assert AllPlain(ws) <==> PlainWord(ws[0]) && AllPlain(ws[1..]) by {
        if PlainWord(ws[0]) && AllPlain(ws[1..]) {
          forall i | 0 <= i < |ws| ensures PlainWord(ws[i]) {
            if i > 0 {
              assert ws[i] == ws[1..][i - 1];
            }
          }
        }
      }
    }
  }

  /**
   * The query is one quoted lexeme per word, separated by " & ", and tsquery
   * reads it back into exactly the words of the term, in order, precisely
   * when no word holds a quote or a backslash: those are doubled or escaped
   * away, or end the lexeme early.
   */
  lemma SearchQueryRoundTrip(term: string)
    ensures ParseSearchQuery(SearchQuery(term)) == Some(Words(term)) <==> AllPlain(Words(term))
  {
    var ws := Words(term);
    var qs := QuoteAll(ws);
    forall i | 0 <= i < |qs| ensures IsWord(qs[i]) {
      QuoteWord(ws[i]);
    }
    JoinInterleaved(qs);
    InterleavedWords(qs);
    WordsOfJoin(Interleaved(qs));
    LexemesOfInterleaved(ws);
  }

  /**
   * The single word "it's" becomes the raw query `'it's'`, which does not
   * read back into it: tsquery closes the lexeme at the inner quote.
   */
  lemma ApostropheNotReadBack()
    ensures SearchQuery("it's") == "'it's'"
    ensures ParseSearchQuery(SearchQuery("it's")) != Some(["it's"])
  {
    var w := "it's";
    assert w[..0] == [];
    assert LeadingWord(w) == w;
    assert Words(w) == [w];
    assert w[2] == '\'';
    SearchQueryRoundTrip(w);
  }

  /** The query is empty exactly when the term is nothing but whitespace. */
  lemma SearchQueryEmpty(term: string)
    ensures SearchQuery(term) == "" <==> AllWhitespace(term)
  {
    WordsEmpty(term);
    var ws := Words(term);
    if ws != [] {
      var qs := QuoteAll(ws);
      JoinStartsWith(qs, " & ");
    }
  }

  lemma JoinStartsWith(parts: seq<string>, sep: string)
    requires |parts| > 0
    ensures |Join(parts, sep)| >= |parts[0]|
  {
  }

  // ----- get_queryset -----

  /** A lookup of `filter_kwargs`. */
  datatype Lookup = SubjectNameIs(name: string) | ExamNumberIs(n: int)

  predicate Satisfies(db: DbState, p: Id, l: Lookup) {
    match l
    case SubjectNameIs(s) => PhotoSubjectName(db, p) == Some(s)
    case ExamNumberIs(n) => PhotoExamNumber(db, p) == Some(n)
  }

  /**
   * PostgreSQL's side of the text search: whether `to_tsquery` accepts a
   * raw query, and whether a photo's search vector matches an accepted one.
   */
  datatype TextSearch = TextSearch(parses: string -> bool, matches: (Photo, string) -> bool)

  /**
   * The database accepts every conjunction of quoted plain words. A word
   * holding a quote or a backslash may instead make it refuse the query
   * ("it's" gives `'it's'`, and a syntax error).
   */
  ghost predicate AcceptsPlainConjunctions(ts: TextSearch) {
    forall ws: seq<string> :: (forall i :: 0 <= i < |ws| ==> IsWord(ws[i])) && AllPlain(ws)
      ==> ts.parses(Join(QuoteAll(ws), " & "))
  }

  /** A search parameter applies a text filter unless it is absent or empty. */
  predicate SearchApplies(search: Option<string>) {
    search.Some? && search.value != ""
  }

  /** The photos of the path's subject, and of its exam number when it has one. */
  function PathFiltered(db: DbState, subject: string, examNumber: Option<int>): set<Id> {
    set p | p in db.photos
      && PhotoSubjectName(db, p) == Some(subject)
      && (examNumber.Some? ==> PhotoExamNumber(db, p) == examNumber)
  }

  /**
   * What the search endpoint answers: a server error when the search
   * parameter applies and the database refuses its raw query (the error is
   * not caught); otherwise the photos of the path's subject and exam number
   * that match the query when the parameter applies.
   */
  function SearchResults(db: DbState, subject: string, examNumber: Option<int>, search: Option<string>, ts: TextSearch)
    : (r: Result<set<Id>, Error>)
    ensures r.Failure? <==> SearchApplies(search) && !ts.parses(SearchQuery(search.value))
    ensures r.Failure? ==> r.error == ServerError
    ensures r.Success? ==> forall p :: p in r.value ==> p in db.photos && PhotoSubjectName(db, p) == Some(subject)
    ensures r.Success? && examNumber.Some? ==> forall p :: p in r.value ==> PhotoExamNumber(db, p) == examNumber
  {
    var all := PathFiltered(db, subject, examNumber);
    if !SearchApplies(search) then Success(all)
    else
      var query := SearchQuery(search.value);
      if !ts.parses(query) then Failure(ServerError)
      else Success(set p | p in all && ts.matches(db.photos[p], query))
  }

  /**
   * The text search only narrows the subject and exam filtered set; without
   * it nothing is dropped and nothing fails.
   */
  lemma SearchNarrows(db: DbState, subject: string, examNumber: Option<int>, search: Option<string>, ts: TextSearch)
    ensures SearchResults(db, subject, examNumber, None, ts) == Success(PathFiltered(db, subject, examNumber))
    ensures SearchResults(db, subject, examNumber, search, ts).Success? ==>
      SearchResults(db, subject, examNumber, search, ts).value <= PathFiltered(db, subject, examNumber)
    ensures !SearchApplies(search) ==>
      SearchResults(db, subject, examNumber, search, ts) == Success(PathFiltered(db, subject, examNumber))
  {
  }

  /**
   * A term of plain words never fails on a database that accepts plain
   * conjunctions, and every photo of the path that matches its query is listed.
   */
  lemma SearchListsMatch(db: DbState, subject: string, examNumber: Option<int>, search: Option<string>, ts: TextSearch, p: Id)
    requires AcceptsPlainConjunctions(ts)
    requires search.Some? ==> AllPlain(Words(search.value))
    requires p in PathFiltered(db, subject, examNumber)
    requires SearchApplies(search) ==> ts.matches(db.photos[p], SearchQuery(search.value))
    ensures SearchResults(db, subject, examNumber, search, ts).Success?
    ensures p in SearchResults(db, subject, examNumber, search, ts).value
  {
    if SearchApplies(search) {
      var ws := Words(search.value);
      assert ts.parses(Join(QuoteAll(ws), " & "));
    }
  }

  /**
   * `get_queryset` and the listing that evaluates it: the subject lookup,
   * the exam number lookup when the path gives one, then the text filter
   * when the search parameter is non-empty, which fails when the database
   * refuses the raw query.
   */
  method GetQueryset(db: DbState, subject: string, examNumber: Option<int>, search: Option<string>, ts: TextSearch)
    returns (r: Result<set<Id>, Error>)
    ensures r == SearchResults(db, subject, examNumber, search, ts)
  {
    var filterKwargs := [SubjectNameIs(subject)];
    if examNumber.Some? {
      filterKwargs := filterKwargs + [ExamNumberIs(examNumber.value)];
    }
    var querySet := set p | p in db.photos && forall i :: 0 <= i < |filterKwargs| ==> Satisfies(db, p, filterKwargs[i]);
    assert querySet == PathFiltered(db, subject, examNumber) by {
      forall p | p in db.photos
        ensures (forall i :: 0 <= i < |filterKwargs| ==> Satisfies(db, p, filterKwargs[i]))
                <==> PhotoSubjectName(db, p) == Some(subject) && (examNumber.Some? ==> PhotoExamNumber(db, p) == examNumber)
      {
        assert filterKwargs[0] == SubjectNameIs(subject);
        if examNumber.Some? {
          assert filterKwargs[1] == ExamNumberIs(examNumber.value);
        }
      }
    }
    if search.Some? && search.value != "" {
      var searchQuery := SearchQuery(search.value);
      if !ts.parses(searchQuery) {
        return Failure(ServerError);
      }
      querySet := set p | p in querySet && p in db.photos && ts.matches(db.photos[p], searchQuery);
      assert querySet == SearchResults(db, subject, examNumber, search, ts).value;
    }
    r := Success(querySet);
  }
}
