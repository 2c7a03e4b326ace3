/** The `GitStatus` record and the parser of `git status --porcelain` output
    (`parse_porcelain_output`, `increment_git_status` in src/git.rs). */
module GitStatusParser {
  import opened Wrappers
  import Strings

  /** Counts of files per status category. The source's fields are `u8`; here
      they are unbounded (see `ParseLinesFitsU8` for when the two agree). */
  datatype GitStatus = GitStatus(
    untracked: nat, added: nat, modified: nat, renamed: nat, deleted: nat,
    stashed: nat, unmerged: nat, ahead: nat, behind: nat, diverged: nat,
    conflicted: nat, staged: nat)

  /** `GitStatus::default()`: every count zero. */
  const Zero := GitStatus(0, 0, 0, 0, 0, 0, 0, 0, 0, 0, 0, 0)

  /** Names of the twelve counters, so that properties can range over them. */
  datatype Field =
    | Untracked | Added | Modified | Renamed | Deleted | Stashed
    | Unmerged | Ahead | Behind | Diverged | Conflicted | Staged

  /** The counter `f` of `s`. */
  function Get(s: GitStatus, f: Field): (n: nat)
  {
    match f
    case Untracked => s.untracked
    case Added => s.added
    case Modified => s.modified
    case Renamed => s.renamed
    case Deleted => s.deleted
    case Stashed => s.stashed
    case Unmerged => s.unmerged
    case Ahead => s.ahead
    case Behind => s.behind
    case Diverged => s.diverged
    case Conflicted => s.conflicted
    case Staged => s.staged
  }

  /** Field-wise sum of two records. */
  function Add(a: GitStatus, b: GitStatus): (r: GitStatus)
    ensures forall f :: Get(r, f) == Get(a, f) + Get(b, f)
  {
    GitStatus(
      a.untracked + b.untracked, a.added + b.added, a.modified + b.modified,
      a.renamed + b.renamed, a.deleted + b.deleted, a.stashed + b.stashed,
      a.unmerged + b.unmerged, a.ahead + b.ahead, a.behind + b.behind,
      a.diverged + b.diverged, a.conflicted + b.conflicted, a.staged + b.staged)
  }

  /** Sum of all twelve counters. */
  function Total(s: GitStatus): (n: nat)
  {
    s.untracked + s.added + s.modified + s.renamed + s.deleted + s.stashed
    + s.unmerged + s.ahead + s.behind + s.diverged + s.conflicted + s.staged
  }

  /** `GitStatus::default()` has every counter at zero. */
  lemma DefaultIsZero()
    ensures forall f :: Get(Zero, f) == 0
    ensures Total(Zero) == 0
  {
    forall f ensures Get(Zero, f) == 0 {
    }
  }

  /** Two records with the same counters are the same record. */
  lemma Extensionality(a: GitStatus, b: GitStatus)
    requires forall f :: Get(a, f) == Get(b, f)
    ensures a == b
  {
    assert Get(a, Untracked) == Get(b, Untracked) && Get(a, Added) == Get(b, Added);
    assert Get(a, Modified) == Get(b, Modified) && Get(a, Renamed) == Get(b, Renamed);
    assert Get(a, Deleted) == Get(b, Deleted) && Get(a, Stashed) == Get(b, Stashed);
    assert Get(a, Unmerged) == Get(b, Unmerged) && Get(a, Ahead) == Get(b, Ahead);
    assert Get(a, Behind) == Get(b, Behind) && Get(a, Diverged) == Get(b, Diverged);
    assert Get(a, Conflicted) == Get(b, Conflicted) && Get(a, Staged) == Get(b, Staged);
  }

  // ---------------------------------------------------------------------------
  // Line splitting: Rust's `str::lines`

  /** Removes one trailing carriage return, if there is one. */
  function StripCr(line: string): (r: string)
    ensures r <= line
    ensures |line| > 0 && line[|line| - 1] == '\r' ==> |r| == |line| - 1
    ensures !(|line| > 0 && line[|line| - 1] == '\r') ==> r == line
  {
    if |line| > 0 && line[|line| - 1] == '\r' then line[..|line| - 1] else line
  }

  /** `str::lines`: split at '\n', drop the empty piece after a final '\n', and
      strip one trailing '\r' from every line. */
  function Lines(s: string): (lines: seq<string>)
    ensures forall i :: 0 <= i < |lines| ==> '\n' !in lines[i]
    ensures s == [] ==> lines == []
  {
    var pieces := Strings.Split(s, '\n');
    var terminated := if pieces[|pieces| - 1] == "" then pieces[..|pieces| - 1] else pieces;
    seq(|terminated|, i requires 0 <= i < |terminated| => StripCr(terminated[i]))
  }

  /** A line followed by '\n' is the first line of the text. */
  lemma LinesAfter(a: string, rest: string)
    requires '\n' !in a
    ensures Lines(a + "\n" + rest) == [StripCr(a)] + Lines(rest)
  {
    Strings.SplitAfter(a, '\n', rest);
    var p := Strings.Split(rest, '\n');
    assert Strings.Split(a + "\n" + rest, '\n') == [a] + p;
    if p[|p| - 1] == "" {
      assert ([a] + p)[..|p|] == [a] + p[..|p| - 1];
    }
  }

  /** A last line without a '\n' after it is still a line. */
  lemma LinesOfLast(a: string)
    requires '\n' !in a && a != ""
    ensures Lines(a) == [StripCr(a)]
  {
    Strings.SplitWithout(a, '\n');
  }

  /** Every line followed by '\n', as `git status` prints them. */
  function Terminated(lines: seq<string>): (text: string)
  {
    if lines == [] then "" else lines[0] + "\n" + Terminated(lines[1..])
  }

  /** `Lines` undoes `Terminated` for lines free of '\n' that do not end in '\r'. */
  lemma {:induction false} LinesOfTerminated(lines: seq<string>)
    requires forall i :: 0 <= i < |lines| ==> '\n' !in lines[i]
    requires forall i :: 0 <= i < |lines| ==> StripCr(lines[i]) == lines[i]
    ensures Lines(Terminated(lines)) == lines
  {
    if lines != [] {
      LinesOfTerminated(lines[1..]);
      LinesAfter(lines[0], Terminated(lines[1..]));
      assert [lines[0]] + lines[1..] == lines;
    }
  }

  /** The same with a last line that has no '\n' after it. */
  lemma {:induction false} LinesOfTerminatedThen(lines: seq<string>, last: string)
    requires forall i :: 0 <= i < |lines| ==> '\n' !in lines[i]
    requires forall i :: 0 <= i < |lines| ==> StripCr(lines[i]) == lines[i]
    requires '\n' !in last && last != ""
    ensures Lines(Terminated(lines) + last) == lines + [StripCr(last)]
  {
    if lines == [] {
      assert Terminated(lines) + last == last;
      LinesOfLast(last);
    } else {
      LinesOfTerminatedThen(lines[1..], last);
      assert Terminated(lines) + last == lines[0] + "\n" + (Terminated(lines[1..]) + last);
      LinesAfter(lines[0], Terminated(lines[1..]) + last);
      assert [lines[0]] + lines[1..] == lines;
    }
  }

  // ---------------------------------------------------------------------------
  // Classification of one line

  /** The first two characters of a line, a missing one read as ' '. */
  function LetterCodes(line: string): (codes: (char, char))
    ensures |line| > 0 ==> codes.0 == line[0]
    ensures |line| > 1 ==> codes.1 == line[1]
    ensures |line| == 0 ==> codes.0 == ' '
    ensures |line| <= 1 ==> codes.1 == ' '
  {
    (if |line| > 0 then line[0] else ' ', if |line| > 1 then line[1] else ' ')
  }

  /** The short-format letters the parser knows, and the counter each selects
      (a copy counts as added, an unmerged path as modified). */
  function LetterCategory(letter: char): (f: Option<Field>)
  {
    if letter == 'A' || letter == 'C' then Some(Added)
    else if letter == 'M' || letter == 'U' then Some(Modified)
    else if letter == 'D' then Some(Deleted)
    else if letter == 'R' then Some(Renamed)
    else if letter == '?' then Some(Untracked)
    else None
  }

  /** `increment_git_status`: a letter of the table raises its counter by one,
      any other letter changes nothing. */
  function IncrementGitStatus(s: GitStatus, letter: char): (r: GitStatus)
    ensures LetterCategory(letter).Some? ==>
              Get(r, LetterCategory(letter).value) == Get(s, LetterCategory(letter).value) + 1
    ensures LetterCategory(letter).None? ==> r == s
  {
    match letter
    case 'A' => s.(added := s.added + 1)
    case 'M' => s.(modified := s.modified + 1)
    case 'D' => s.(deleted := s.deleted + 1)
    case 'R' => s.(renamed := s.renamed + 1)
    case 'C' => s.(added := s.added + 1)
    case 'U' => s.(modified := s.modified + 1)
    case '?' => s.(untracked := s.untracked + 1)
    case _ => s
  }

  /** `increment_git_status` raises exactly the counter of `LetterCategory`, by
      one, and leaves every other counter alone; for a letter outside the table,
      such as the 'S' the parser passes on every line, it changes nothing. */
  lemma IncrementEffect(s: GitStatus, letter: char)
    ensures forall f ::
              Get(IncrementGitStatus(s, letter), f) == Get(s, f) + (if LetterCategory(letter) == Some(f) then 1 else 0)
  {
  }

  /** The counter a line raises, as the parser is written: an equal pair of
      letter codes (a missing letter being ' ') is a conflict; otherwise only the
      second letter is looked at. */
  function LineCategory(line: string): (f: Option<Field>)
  {
    var codes := LetterCodes(line);
    if codes.0 == codes.1 then Some(Conflicted) else LetterCategory(codes.1)
  }

  /** The counters the parser can ever raise. */
  predicate ParserField(f: Field)
  {
    f == Untracked || f == Added || f == Modified || f == Renamed || f == Deleted || f == Conflicted
  }

  lemma LineCategoryRange(line: string)
    ensures LineCategory(line).Some? ==> ParserField(LineCategory(line).value)
  {
  }

  /** The body of the loop in `parse_porcelain_output`, applied to one line: it
      raises the counter of the line's category by one, and changes nothing
      for a line without one. */
  function CountLine(s: GitStatus, line: string): (r: GitStatus)
    ensures LineCategory(line).Some? ==>
              Get(r, LineCategory(line).value) == Get(s, LineCategory(line).value) + 1
    ensures LineCategory(line).None? ==> r == s
  {
    var codes := LetterCodes(line);
    if codes.0 == codes.1 then s.(conflicted := s.conflicted + 1)
    else IncrementGitStatus(IncrementGitStatus(s, 'S'), codes.1)
  }

  /** Counting one line raises the counter `LineCategory` names by exactly one
      and no other counter. */
  lemma CountLineEffect(s: GitStatus, line: string)
    ensures forall f ::
              Get(CountLine(s, line), f) == Get(s, f) + (if LineCategory(line) == Some(f) then 1 else 0)
  {
    var codes := LetterCodes(line);
    if codes.0 != codes.1 {
      IncrementEffect(s, 'S');
      IncrementEffect(s, codes.1);
    }
  }

  /** A line whose two letter codes are equal counts as one conflict and
      nothing else: "??", "MM", "UU", "" and " " alike. */
  lemma EqualPairIsConflict(s: GitStatus, line: string)
    requires LetterCodes(line).0 == LetterCodes(line).1
    ensures CountLine(s, line) == s.(conflicted := s.conflicted + 1)
    ensures LineCategory(line) == Some(Conflicted)
  {
  }

  lemma ConflictExamples()
    ensures LineCategory("?? README.md") == Some(Conflicted)
    ensures LineCategory("MM src/main.rs") == Some(Conflicted)
    ensures LineCategory("UU a") == Some(Conflicted)
    ensures LineCategory("") == Some(Conflicted)
    ensures LineCategory(" ") == Some(Conflicted)
    ensures LineCategory(" M a") == Some(Modified)
    ensures LineCategory("M  a") == None
  {
  }

  /** Otherwise only the second letter decides, through the letter table. */
  lemma SecondLetterDecides(s: GitStatus, line: string)
    requires LetterCodes(line).0 != LetterCodes(line).1
    ensures CountLine(s, line) == IncrementGitStatus(s, LetterCodes(line).1)
    ensures LineCategory(line) == LetterCategory(LetterCodes(line).1)
  {
  }

  // ---------------------------------------------------------------------------
  // The whole listing

  /** The counters after the loop has run over `lines`, in order. The parser
      never touches `stashed`, `unmerged`, `ahead`, `behind`, `diverged` or
      `staged`. */
  function ParseLines(lines: seq<string>): (r: GitStatus)
    ensures r.stashed == 0 && r.unmerged == 0 && r.ahead == 0 && r.behind == 0
    ensures r.diverged == 0 && r.staged == 0
  {
    if lines == [] then Zero
    else
      var prev, last := ParseLines(lines[..|lines| - 1]), lines[|lines| - 1];
      LineCategoryRange(last);
      CountLineEffect(prev, last);
      CountLine(prev, last)
  }

  /** `parse_porcelain_output` as a function of the text: each line of the
      output raises at most one counter by one. */
  function Parse(porcelain: string): (r: GitStatus)
    ensures Total(r) + Count(Lines(porcelain), None) == |Lines(porcelain)|
  {
    ParseLinesTotal(Lines(porcelain));
    ParseLines(Lines(porcelain))
  }

  /** `parse_porcelain_output`: fold every line of the output into the counters. */
  method ParsePorcelainOutput(porcelain: string) returns (vcsStatus: GitStatus)
    ensures vcsStatus == Parse(porcelain)
  {
    var porcelainLines := Lines(porcelain);
    vcsStatus := Zero;
    var i := 0;
    while i < |porcelainLines|
      invariant 0 <= i <= |porcelainLines|
      invariant vcsStatus == ParseLines(porcelainLines[..i])
    {
      var line := porcelainLines[i];
      var letterCodes := LetterCodes(line);
      if letterCodes.0 == letterCodes.1 {
        vcsStatus := vcsStatus.(conflicted := vcsStatus.conflicted + 1);
      } else {
        vcsStatus := IncrementGitStatus(vcsStatus, 'S');
        vcsStatus := IncrementGitStatus(vcsStatus, letterCodes.1);
      }
      assert porcelainLines[..i + 1][..i] == porcelainLines[..i];
      i := i + 1;
    }
    assert porcelainLines[..i] == porcelainLines;
  }

  /** Number of lines whose category is `cat` (`None`: lines no rule matches). */
  function Count(lines: seq<string>, cat: Option<Field>): (n: nat)
    ensures n <= |lines|
  {
    if lines == [] then 0
    else Count(lines[..|lines| - 1], cat) + (if LineCategory(lines[|lines| - 1]) == cat then 1 else 0)
  }

  lemma {:induction false} CountAppend(xs: seq<string>, ys: seq<string>, cat: Option<Field>)
    ensures Count(xs + ys, cat) == Count(xs, cat) + Count(ys, cat)
    decreases |ys|
  {
    if ys == [] {
      assert xs + ys == xs;
    } else {
      CountAppend(xs, ys[..|ys| - 1], cat);
      assert (xs + ys)[..|xs + ys| - 1] == xs + ys[..|ys| - 1];
    }
  }

  /** Each counter of the parsed listing is the number of lines of its category. */
  lemma {:induction false} ParseLinesCounts(lines: seq<string>)
    ensures forall f :: Get(ParseLines(lines), f) == Count(lines, Some(f))
    decreases |lines|
  {
    if lines != [] {
      ParseLinesCounts(lines[..|lines| - 1]);
      CountLineEffect(ParseLines(lines[..|lines| - 1]), lines[|lines| - 1]);
    }
  }

  /** The empty output parses to the all-zero record. */
  lemma ParseEmpty()
    ensures Parse("") == Zero
  {
  }

  /** Every line raises at most one counter by one: the counters add up to the
      number of lines minus the lines no rule matches. */
  lemma {:induction false} ParseLinesTotal(lines: seq<string>)
    ensures Total(ParseLines(lines)) + Count(lines, None) == |lines|
    decreases |lines|
  {
    if lines != [] {
      var init, last := lines[..|lines| - 1], lines[|lines| - 1];
      ParseLinesTotal(init);
      CountLineEffect(ParseLines(init), last);
      var before, after := ParseLines(init), ParseLines(lines);
      assert Get(after, Stashed) == Get(before, Stashed);
      assert Get(after, Unmerged) == Get(before, Unmerged);
      assert Get(after, Ahead) == Get(before, Ahead);
      assert Get(after, Behind) == Get(before, Behind);
      assert Get(after, Diverged) == Get(before, Diverged);
      assert Get(after, Staged) == Get(before, Staged);
      assert Get(after, Untracked) == Get(before, Untracked) + (if LineCategory(last) == Some(Untracked) then 1 else 0);
      assert Get(after, Added) == Get(before, Added) + (if LineCategory(last) == Some(Added) then 1 else 0);
      assert Get(after, Modified) == Get(before, Modified) + (if LineCategory(last) == Some(Modified) then 1 else 0);
      assert Get(after, Renamed) == Get(before, Renamed) + (if LineCategory(last) == Some(Renamed) then 1 else 0);
      assert Get(after, Deleted) == Get(before, Deleted) + (if LineCategory(last) == Some(Deleted) then 1 else 0);
      assert Get(after, Conflicted) == Get(before, Conflicted) + (if LineCategory(last) == Some(Conflicted) then 1 else 0);
      LineCategoryRange(last);
    }
  }

  /** Parsing `xs` followed by `ys` is the field-wise sum of parsing each. */
  lemma ParseLinesAppend(xs: seq<string>, ys: seq<string>)
    ensures ParseLines(xs + ys) == Add(ParseLines(xs), ParseLines(ys))
  {
    ParseLinesCounts(xs + ys);
    ParseLinesCounts(xs);
    ParseLinesCounts(ys);
    forall f ensures Get(ParseLines(xs + ys), f) == Get(Add(ParseLines(xs), ParseLines(ys)), f) {
      CountAppend(xs, ys, Some(f));
    }
    Extensionality(ParseLines(xs + ys), Add(ParseLines(xs), ParseLines(ys)));
  }

  /** Counting depends only on which lines occur how often, not on their order. */
  lemma {:induction false} CountPermutation(xs: seq<string>, ys: seq<string>, cat: Option<Field>)
    requires multiset(xs) == multiset(ys)
    ensures Count(xs, cat) == Count(ys, cat)
    decreases |xs|
  {
    if xs != [] {
      var init, last := xs[..|xs| - 1], xs[|xs| - 1];
      assert xs == init + [last];
      assert last in multiset(ys);
      var k :| 0 <= k < |ys| && ys[k] == last;
      var rest := ys[..k] + ys[k + 1..];
      assert ys == ys[..k] + [last] + ys[k + 1..];
      assert multiset(ys) == multiset(ys[..k]) + multiset{last} + multiset(ys[k + 1..]);
      assert multiset(xs) == multiset(init) + multiset{last};
      assert multiset(rest) == multiset(ys[..k]) + multiset(ys[k + 1..]);
      assert multiset(init) == multiset(xs) - multiset{last};
      assert multiset(rest) == multiset(ys) - multiset{last};
      CountPermutation(init, rest, cat);
      CountAppend(init, [last], cat);
      CountAppend(ys[..k], [last], cat);
      CountAppend(ys[..k] + [last], ys[k + 1..], cat);
      CountAppend(ys[..k], ys[k + 1..], cat);
      assert [last][..0] == [];
    }
  }

  /** Permuting the lines of the output leaves the parsed record unchanged. */
  lemma ParseLinesPermutation(xs: seq<string>, ys: seq<string>)
    requires multiset(xs) == multiset(ys)
    ensures ParseLines(xs) == ParseLines(ys)
  {
    ParseLinesCounts(xs);
    ParseLinesCounts(ys);
    forall f ensures Get(ParseLines(xs), f) == Get(ParseLines(ys), f) {
      CountPermutation(xs, ys, Some(f));
    }
    Extensionality(ParseLines(xs), ParseLines(ys));
  }

  /** With fewer than 256 lines no counter can pass 255, so the source's `u8`
      counters cannot overflow and agree with these unbounded ones. */
  lemma ParseLinesFitsU8(lines: seq<string>)
    requires |lines| < 256
    ensures forall f :: Get(ParseLines(lines), f) < 256
  {
    ParseLinesCounts(lines);
  }

  /** The text of the source's unit test, one line at a time. */
  const UnitTestInput: string :=
    "M src/prompt.rs" + "\n" + ("MM src/main.rs" + "\n" + ("A src/formatter.rs" + "\n" + "? README.md"))

  /** Four lines, the last without a '\n' after it. */
  lemma LinesOfFour(a: string, b: string, c: string, d: string)
    requires '\n' !in a && '\n' !in b && '\n' !in c && '\n' !in d && d != ""
    ensures Lines(a + "\n" + (b + "\n" + (c + "\n" + d))) == [StripCr(a), StripCr(b), StripCr(c), StripCr(d)]
  {
    LinesOfLast(d);
    LinesAfter(c, d);
    LinesAfter(b, c + "\n" + d);
    LinesAfter(a, b + "\n" + (c + "\n" + d));
  }

  /** Four lines are counted one after another. */
  lemma ParseLinesOfFour(a: string, b: string, c: string, d: string)
    ensures ParseLines([a, b, c, d]) == CountLine(CountLine(CountLine(CountLine(Zero, a), b), c), d)
  {
    assert [a][..0] == [];
    assert ParseLines([a]) == CountLine(Zero, a);
    assert [a, b][..1] == [a];
    assert ParseLines([a, b]) == CountLine(ParseLines([a]), b);
    assert [a, b, c][..2] == [a, b];
    assert ParseLines([a, b, c]) == CountLine(ParseLines([a, b]), c);
    assert [a, b, c, d][..3] == [a, b, c];
  }

  /** The source's unit-test text splits into its four lines. */
  lemma UnitTestInputLines()
    ensures Lines(UnitTestInput) == ["M src/prompt.rs", "MM src/main.rs", "A src/formatter.rs", "? README.md"]
  {
    LinesOfFour("M src/prompt.rs", "MM src/main.rs", "A src/formatter.rs", "? README.md");
  }

  /** What the source's unit test feeds the parser. The test expects
      modified = 2, added = 1, untracked = 1; the code as written counts the one
      "MM" line as a conflict and ignores the other three, whose second
      character is ' '. */
  lemma UnitTestInputActual()
    ensures Parse(UnitTestInput) == Zero.(conflicted := 1)
  {
    var a, b, c, d := "M src/prompt.rs", "MM src/main.rs", "A src/formatter.rs", "? README.md";
    UnitTestInputLines();
    ParseLinesOfFour(a, b, c, d);
    var one := Zero.(conflicted := 1);
    assert LetterCodes(a) == ('M', ' ');
    assert CountLine(Zero, a) == Zero;
    assert LetterCodes(b) == ('M', 'M');
    EqualPairIsConflict(Zero, b);
    assert LetterCodes(c) == ('A', ' ');
    assert CountLine(one, c) == one;
    assert LetterCodes(d) == ('?', ' ');
    assert CountLine(one, d) == one;
  }

  /** Four lines, each followed by '\n'. */
  lemma TerminatedOfFour(a: string, b: string, c: string, d: string)
    ensures Terminated([a, b, c, d]) == a + "\n" + (b + "\n" + (c + "\n" + (d + "\n")))
  {
    assert [d][1..] == [] && Terminated([d]) == d + "\n" + "";
    assert d + "\n" + "" == d + "\n";
    assert [c, d][1..] == [d] && Terminated([c, d]) == c + "\n" + Terminated([d]);
    assert [b, c, d][1..] == [c, d] && Terminated([b, c, d]) == b + "\n" + Terminated([c, d]);
    assert [a, b, c, d][1..] == [b, c, d];
  }

  /** A listing in the shape git prints, every line ended by '\n'. */
  const PrintedListing: string :=
    "M a" + "\n" + ("MM b" + "\n" + ("A c" + "\n" + ("?? d" + "\n")))

  /** The listing splits into its four lines. */
  lemma PrintedListingLines()
    ensures Lines(PrintedListing) == ["M a", "MM b", "A c", "?? d"]
  {
    var lines := ["M a", "MM b", "A c", "?? d"];
    assert forall i :: 0 <= i < |lines| ==> '\n' !in lines[i] && StripCr(lines[i]) == lines[i];
    LinesOfTerminated(lines);
    TerminatedOfFour("M a", "MM b", "A c", "?? d");
  }

  /** "??" too counts as a conflict here. */
  lemma PrintedListingActual()
    ensures Parse(PrintedListing) == Zero.(conflicted := 2)
  {
    var a, b, c, d := "M a", "MM b", "A c", "?? d";
    PrintedListingLines();
    ParseLinesOfFour(a, b, c, d);
    var one := Zero.(conflicted := 1);
    assert LetterCodes(a) == ('M', ' ');
    assert CountLine(Zero, a) == Zero;
    assert LetterCodes(b) == ('M', 'M');
    EqualPairIsConflict(Zero, b);
    assert LetterCodes(c) == ('A', ' ');
    assert CountLine(one, c) == one;
    assert LetterCodes(d) == ('?', '?');
    EqualPairIsConflict(one, d);
  }
}
