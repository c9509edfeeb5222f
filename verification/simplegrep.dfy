/**
 * The library of a small grep: resolving the configuration from the
 * command-line arguments and one environment variable, and the two line
 * searches, case-sensitive and case-insensitive.
 */
module SimpleGrep {
  import opened Wrappers
  import opened Text
  import opened Filtering

  // -------------------------------------------------------- configuration

  datatype Config = Config(query: string, filePath: string, ignoreCase: bool)

  /** The two ways resolving the configuration can fail. */
  datatype BuildError = QueryMissing | FilePathMissing

  /** The message each failure carries. */
  function Message(e: BuildError): (m: string)
    ensures m == "Query is missing." <==> e == QueryMissing
    ensures m == "File path is missing." <==> e == FilePathMissing
  {
    match e
    case QueryMissing => "Query is missing."
    case FilePathMissing => "File path is missing."
  }

  /**
   * What looking up an environment variable can report (Rust's `env::var`):
   * a value, no such variable, or a value that is not valid Unicode.
   */
  datatype EnvLookup = Found(value: string) | NotPresent | NotUnicode

  /**
   * One step of the argument iterator: the next argument, if any, and the
   * rest. An exhausted iterator stays exhausted; otherwise the argument taken
   * and the rest make up exactly what there was.
   */
  function Next(args: seq<string>): (r: (Option<string>, seq<string>))
    ensures r.0.None? <==> args == []
    ensures r.0.None? ==> r.1 == []
    ensures r.0.Some? ==> [r.0.value] + r.1 == args
  {
    if args == [] then (None, []) else (Some(args[0]), args[1..])
  }

  /**
   * Resolves the configuration: skips the program name, takes the query and
   * then the file path, and turns case-insensitive matching on when the
   * lookup of `IGNORE_CASE` (given as `ignoreCaseVar`) succeeds.
   */
  function Build(args: seq<string>, ignoreCaseVar: EnvLookup): (r: Result<Config, BuildError>)
    ensures r == Err(QueryMissing) <==> |args| <= 1
    ensures r == Err(FilePathMissing) <==> |args| == 2
    ensures r.Ok? <==> |args| >= 3
    ensures r.Ok? ==> r.value.query == args[1] && r.value.filePath == args[2]
    ensures r.Ok? ==> (r.value.ignoreCase <==> ignoreCaseVar.Found?)
    ensures r.Err? ==> Message(r.error) == if |args| <= 1 then "Query is missing." else "File path is missing."
  {
    var (_, afterProgram) := Next(args);
    match Next(afterProgram)
    case (None, _) => Err(QueryMissing)
    case (Some(query), afterQuery) =>
      match Next(afterQuery)
      case (None, _) => Err(FilePathMissing)
      case (Some(filePath), _) => Ok(Config(query, filePath, ignoreCaseVar.Found?))
  }

  /** Arguments after the file path are never consulted. */
  lemma BuildIgnoresExtraArgs(args: seq<string>, extra: seq<string>, ignoreCaseVar: EnvLookup)
    requires |args| >= 3
    ensures Build(args + extra, ignoreCaseVar) == Build(args, ignoreCaseVar)
  {
    assert (args + extra)[1] == args[1] && (args + extra)[2] == args[2];
  }

  /** Only the presence of `IGNORE_CASE` counts, not its value: even "" turns it on. */
  lemma BuildIgnoreCaseEmptyValue(args: seq<string>)
    requires |args| >= 3
    ensures Build(args, Found("")).Ok? && Build(args, Found("")).value.ignoreCase
    ensures Build(args, NotPresent).Ok? && !Build(args, NotPresent).value.ignoreCase
  {
  }

  // ---------------------------------------------------------------- search

  /** The test applied to each line by the case-sensitive search. */
  function SensitiveMatch(query: string): string -> bool {
    line => Contains(line, query)
  }

  /** The test applied to each line by the case-insensitive search. */
  function InsensitiveMatch(query: string): string -> bool {
    line => Contains(LowerStr(line), LowerStr(query))
  }

  /** The lines of `contents` that contain `query`, in order. */
  function SearchCaseSensitive(query: string, contents: string): (r: seq<string>)
    ensures |r| <= |Lines(contents)|
    ensures forall k :: 0 <= k < |r| ==> Contains(r[k], query)
  {
    Filter(Lines(contents), SensitiveMatch(query))
  }

  /** The lines of `contents` that contain `query` once both are lower-cased, in order. */
  function SearchCaseInsensitive(query: string, contents: string): (r: seq<string>)
    ensures |r| <= |Lines(contents)|
    ensures forall k :: 0 <= k < |r| ==> Contains(LowerStr(r[k]), LowerStr(query))
  {
    Filter(Lines(contents), InsensitiveMatch(query))
  }

  /**
   * The case-sensitive result is exactly the lines of `contents` containing
   * `query`, each one once, in the order of the text.
   */
  lemma SearchCaseSensitiveExact(query: string, contents: string)
    ensures Selects(SearchCaseSensitive(query, contents), Lines(contents),
                    SensitiveMatch(query), Positions(Lines(contents), SensitiveMatch(query)))
    ensures IsSubsequence(SearchCaseSensitive(query, contents), Lines(contents))
  {
    FilterSelects(Lines(contents), SensitiveMatch(query));
    FilterIsSubsequence(Lines(contents), SensitiveMatch(query));
  }

  /**
   * The case-insensitive result is exactly the lines of `contents` whose
   * lower-cased text contains the lower-cased `query`, as they are written
   * (not lower-cased), in the order of the text.
   */
  lemma SearchCaseInsensitiveExact(query: string, contents: string)
    ensures Selects(SearchCaseInsensitive(query, contents), Lines(contents),
                    InsensitiveMatch(query), Positions(Lines(contents), InsensitiveMatch(query)))
    ensures IsSubsequence(SearchCaseInsensitive(query, contents), Lines(contents))
  {
    FilterSelects(Lines(contents), InsensitiveMatch(query));
    FilterIsSubsequence(Lines(contents), InsensitiveMatch(query));
  }

  /** Every line the case-sensitive search finds, the case-insensitive one finds too, in the same order. */
  lemma InsensitiveIncludesSensitive(query: string, contents: string)
    ensures IsSubsequence(SearchCaseSensitive(query, contents), SearchCaseInsensitive(query, contents))
  {
    var ls := Lines(contents);
    forall l | l in ls && SensitiveMatch(query)(l)
      ensures InsensitiveMatch(query)(l)
    {
      ContainsLower(l, query);
    }
    FilterMonotone(ls, SensitiveMatch(query), InsensitiveMatch(query));
  }

  /** The empty query matches every line, in either mode. */
  lemma EmptyQueryKeepsAllLines(contents: string)
    ensures SearchCaseSensitive("", contents) == Lines(contents)
    ensures SearchCaseInsensitive("", contents) == Lines(contents)
  {
    var ls := Lines(contents);
    forall k | 0 <= k < |ls| ensures SensitiveMatch("")(ls[k]) && InsensitiveMatch("")(ls[k]) {
      assert [] <= ls[k] && [] <= LowerStr(ls[k]);
    }
    FilterAll(ls, SensitiveMatch(""));
    FilterAll(ls, InsensitiveMatch(""));
  }

  /** Empty contents has no lines, so nothing matches, in either mode. */
  lemma EmptyContentsNoResults(query: string)
    ensures SearchCaseSensitive(query, "") == []
    ensures SearchCaseInsensitive(query, "") == []
  {
  }

  /** In case-insensitive mode the letter case of the query makes no difference. */
  lemma InsensitiveIgnoresQueryCase(query: string, contents: string)
    ensures SearchCaseInsensitive(query, contents) == SearchCaseInsensitive(LowerStr(query), contents)
  {
    LowerStrIdempotent(query);
    var ls := Lines(contents);
    FilterCongruent(ls, InsensitiveMatch(query), InsensitiveMatch(LowerStr(query)));
  }

  /**
   * The search the driver runs for a configuration: case-insensitive when
   * `ignoreCase` is set, case-sensitive otherwise. Whatever the mode, the
   * result is drawn in order from the lines of `contents`, and each result
   * line contains the query at least up to letter case. It is exactly the
   * selection of the lines by the test of the chosen mode.
   */
  function Results(config: Config, contents: string): (r: seq<string>)
    ensures var p := if config.ignoreCase then InsensitiveMatch(config.query) else SensitiveMatch(config.query);
      Selects(r, Lines(contents), p, Positions(Lines(contents), p))
    ensures IsSubsequence(r, Lines(contents))
    ensures forall k :: 0 <= k < |r| ==> Contains(LowerStr(r[k]), LowerStr(config.query))
    ensures !config.ignoreCase ==> forall k :: 0 <= k < |r| ==> Contains(r[k], config.query)
  {
    SearchCaseSensitiveExact(config.query, contents);
    SearchCaseInsensitiveExact(config.query, contents);
    var r := if config.ignoreCase then SearchCaseInsensitive(config.query, contents)
             else SearchCaseSensitive(config.query, contents);
    assert forall k :: 0 <= k < |r| ==> Contains(LowerStr(r[k]), LowerStr(config.query)) by {
      forall k | 0 <= k < |r| ensures Contains(LowerStr(r[k]), LowerStr(config.query)) {
        ContainsLower(r[k], config.query);
      }
    }
    r
  }

  // ----------------------------------------------------- test scenarios

  const Line1: string := "Rust, a language bold and new,"
  const Line2: string := "Memory-safe and fast, it's true."
  const Line3: string := "With syntax clean and easy to view,"
  const Line4: string := "Coding in Rust, a pleasure to pursue."
  /** The four-line poem of the library's tests (no final terminator). */
  const Poem: string := Line1 + "\n" + Line2 + "\n" + Line3 + "\n" + Line4

  /** A line that `Lines` gives back unchanged when it is followed by '\n'. */
  predicate PlainLine(l: string) {
    l != [] && '\n' !in l && !EndsWithCR(l)
  }

  lemma LinesPrepend(a: string, rest: string, tail: seq<string>)
    requires PlainLine(a) && Lines(rest) == tail
    ensures Lines(a + "\n" + rest) == [a] + tail
  {
    LinesBreak(a, rest);
  }

  lemma LinesOfTwo(c: string, d: string)
    requires PlainLine(c) && PlainLine(d)
    ensures Lines(c + "\n" + d) == [c, d]
  {
    LinesLast(d);
    LinesPrepend(c, d, [d]);
  }

  lemma LinesOfThree(b: string, c: string, d: string)
    requires PlainLine(b) && PlainLine(c) && PlainLine(d)
    ensures Lines(b + "\n" + (c + "\n" + d)) == [b, c, d]
  {
    LinesOfTwo(c, d);
    LinesPrepend(b, c + "\n" + d, [c, d]);
  }

  lemma LinesOfFour(a: string, b: string, c: string, d: string)
    requires PlainLine(a) && PlainLine(b) && PlainLine(c) && PlainLine(d)
    ensures Lines(a + "\n" + (b + "\n" + (c + "\n" + d))) == [a, b, c, d]
  {
    LinesOfThree(b, c, d);
    LinesPrepend(a, b + "\n" + (c + "\n" + d), [b, c, d]);
  }

  lemma PoemShape()
    ensures Poem == Line1 + "\n" + (Line2 + "\n" + (Line3 + "\n" + Line4))
  {
  }

  lemma Line1Plain() ensures PlainLine(Line1) {}
  lemma Line2Plain() ensures PlainLine(Line2) {}
  lemma Line3Plain() ensures PlainLine(Line3) {}
  lemma Line4Plain() ensures PlainLine(Line4) {}

  /** The poem splits into its four lines. */
  lemma PoemLines()
    ensures Lines(Poem) == [Line1, Line2, Line3, Line4]
  {
    Line1Plain();
    Line2Plain();
    Line3Plain();
    Line4Plain();
    LinesOfFour(Line1, Line2, Line3, Line4);
    PoemShape();
  }

  lemma Line1ContainsBold()
    ensures Contains(Line1, "bold")
  {
    assert Line1[17..21] == "bold";
    assert OccursAt(Line1, "bold", 17);
    ContainsOccurs(Line1, "bold");
  }

  /** Only the first of four lines passes `p`. */
  lemma FilterFirstOfFour(a: string, b: string, c: string, d: string, p: string -> bool)
    requires p(a) && !p(b) && !p(c) && !p(d)
    ensures Filter([a, b, c, d], p) == [a]
  {
    FilterNoneOfThree(b, c, d, p);
    assert [a, b, c, d][1..] == [b, c, d];
  }

  /** None of four lines passes `p`. */
  lemma FilterNoneOfFour(a: string, b: string, c: string, d: string, p: string -> bool)
    requires !p(a) && !p(b) && !p(c) && !p(d)
    ensures Filter([a, b, c, d], p) == []
  {
    FilterNoneOfThree(b, c, d, p);
    assert [a, b, c, d][1..] == [b, c, d];
  }

  lemma FilterNoneOfThree(b: string, c: string, d: string, p: string -> bool)
    requires !p(b) && !p(c) && !p(d)
    ensures Filter([b, c, d], p) == []
  {
    assert Filter([d], p) == [];
    assert [c, d][1..] == [d];
    assert Filter([c, d], p) == [];
    assert [b, c, d][1..] == [c, d];
  }

  lemma NoLowerBInLines234()
    ensures 'b' !in Line2 && 'b' !in Line3 && 'b' !in Line4
  {
  }

  lemma NoUpperBInPoem()
    ensures 'B' !in Line1 && 'B' !in Line2 && 'B' !in Line3 && 'B' !in Line4
  {
  }

  /** Query "bold", case-sensitive: only the first line. */
  lemma ScenarioCaseSensitive()
    ensures SearchCaseSensitive("bold", Poem) == [Line1]
  {
    PoemLines();
    Line1ContainsBold();
    NoLowerBInLines234();
    NotContainsFirst(Line2, "bold");
    NotContainsFirst(Line3, "bold");
    NotContainsFirst(Line4, "bold");
    FilterFirstOfFour(Line1, Line2, Line3, Line4, SensitiveMatch("bold"));
  }

  lemma LowerBoLd()
    ensures LowerStr("BoLd") == "bold" && LowerStr("bold") == "bold"
  {
  }

  lemma InsensitiveBoLdLine1()
    ensures InsensitiveMatch("BoLd")(Line1)
  {
    LowerBoLd();
    Line1ContainsBold();
    ContainsLower(Line1, "bold");
  }

  /** A line with neither 'b' nor 'B' does not match "BoLd" up to case. */
  lemma InsensitiveBoLdMisses(l: string)
    requires 'b' !in l && 'B' !in l
    ensures !InsensitiveMatch("BoLd")(l)
  {
    LowerBoLd();
    LowerStrExcludes(l, 'b');
    NotContainsFirst(LowerStr(l), "bold");
  }

  /** Query "BoLd", case-insensitive: the same single line, as written. */
  lemma ScenarioCaseInsensitive()
    ensures SearchCaseInsensitive("BoLd", Poem) == [Line1]
  {
    PoemLines();
    InsensitiveBoLdLine1();
    NoLowerBInLines234();
    NoUpperBInPoem();
    InsensitiveBoLdMisses(Line2);
    InsensitiveBoLdMisses(Line3);
    InsensitiveBoLdMisses(Line4);
    FilterFirstOfFour(Line1, Line2, Line3, Line4, InsensitiveMatch("BoLd"));
  }

  /** Query "BoLd", case-sensitive: no line has a capital 'B'. */
  lemma ScenarioCaseSensitiveMixedCase()
    ensures SearchCaseSensitive("BoLd", Poem) == []
  {
    PoemLines();
    NoUpperBInPoem();
    NotContainsFirst(Line1, "BoLd");
    NotContainsFirst(Line2, "BoLd");
    NotContainsFirst(Line3, "BoLd");
    NotContainsFirst(Line4, "BoLd");
    FilterNoneOfFour(Line1, Line2, Line3, Line4, SensitiveMatch("BoLd"));
  }
}
