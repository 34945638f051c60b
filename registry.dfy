/**
 * The membership set of valid numbers: how the fetched CSV text becomes a set
 * (the loop in `loadCSVFromGitHub`) and how a candidate number is looked up in it
 * (`checkNumber`).
 */
module Registry {
  import opened Wrappers
  import opened Text

  /** The column separators of `split(/[,;]/)`. */
  predicate IsDelimiter(c: char) {
    c == ',' || c == ';'
  }

  /**
   * `line.split(/[,;]/)[0]`: the first column. It is a prefix of the line with no
   * delimiter in it, and it ends at the first delimiter or at the end of the line.
   */
  function FirstField(line: string): (r: string)
    ensures |r| <= |line| && r == line[..|r|]
    ensures forall i :: 0 <= i < |r| ==> !IsDelimiter(r[i])
    ensures |r| < |line| ==> IsDelimiter(line[|r|])
    decreases |line|
  {
    if line == [] || IsDelimiter(line[0]) then [] else [line[0]] + FirstField(line[1..])
  }

  /** The first column ends at the first delimiter: everything before it, and nothing after it, is the column. */
  lemma FirstFieldAt(a: string, d: char, b: string)
    requires ',' !in a && ';' !in a && IsDelimiter(d)
    ensures FirstField(a + [d] + b) == a
  {
    var s := a + [d] + b;
    var r := FirstField(s);
    assert s[..|a|] == a && s[|a|] == d;
    assert |r| == |a|;
  }

  /** A line without delimiters is a single column. */
  lemma FirstFieldWhole(a: string)
    requires ',' !in a && ';' !in a
    ensures FirstField(a) == a
  {
  }

  /** What may be in the set: non-empty, its own trim, and free of both delimiters. */
  predicate IsIdentifier(t: string) {
    t != [] && Trim(t) == t && ',' !in t && ';' !in t
  }

  /**
   * The number one data line contributes, if any: the line is trimmed, skipped when
   * empty, and otherwise its first column, trimmed, is taken when non-empty.
   */
  function LineNumber(line: string): Option<string> {
    var l := Trim(line);
    if l == [] then None
    else
      var n := Trim(FirstField(l));
      if n == [] then None else Some(n)
  }

  /**
   * A data line yields a number exactly when its trimmed first column is non-empty
   * (the earlier test that the trimmed line is non-empty never decides on its own),
   * and what it yields is always an identifier.
   */
  lemma LineNumberSpec(line: string)
    ensures LineNumber(line).Some? <==> Trim(FirstField(Trim(line))) != []
    ensures LineNumber(line).Some? ==> IsIdentifier(LineNumber(line).value)
  {
    var l := Trim(line);
    var f := FirstField(l);
    TrimSpec(f);
    TrimIdempotent(f);
    if l == [] {
      assert f == [];
      TrimSpec(f);
    }
    if Trim(f) != [] {
      assert forall i :: 0 <= i < |f| ==> !IsDelimiter(f[i]);
      assert ',' !in f && ';' !in f;
    }
  }

  function Contribution(line: string): set<string> {
    match LineNumber(line)
    case Some(n) => {n}
    case None => {}
  }

  /** The set built from data lines, added one line after the other. */
  function Collect(data: seq<string>): set<string>
    decreases |data|
  {
    if data == [] then {} else Collect(data[..|data| - 1]) + Contribution(data[|data| - 1])
  }

  /** The set built from all lines of the file: line 0 is the header and is skipped. */
  function NumbersOf(lines: seq<string>): set<string> {
    if |lines| == 0 then {} else Collect(lines[1..])
  }

  /** The set built from the fetched text, split on '\n'. */
  function Parse(text: string): set<string> {
    NumbersOf(Split(text, '\n'))
  }

  /** The parse loop of `loadCSVFromGitHub`: builds the set by adding the first column of each data line. */
  method ParseCsv(text: string) returns (numbers: set<string>)
    ensures numbers == Parse(text)
    ensures forall t :: t in numbers ==> IsIdentifier(t)
  {
    var lines := Split(text, '\n');
    numbers := {};
    var i := 1;
    while i < |lines|
      invariant 1 <= i <= |lines|
      invariant numbers == Collect(lines[1..i])
    {
      var line := Trim(lines[i]);
      if line != [] {
        var number := Trim(FirstField(line));
        if number != [] {
          numbers := numbers + {number};
        }
      }
      assert lines[1..i + 1][..i - 1] == lines[1..i];
      i := i + 1;
    }
    assert lines[1..i] == lines[1..];
    CollectedAreIdentifiers(lines[1..]);
  }

  /** `validNumbers.has(number.trim())`. */
  function IsListed(numbers: set<string>, candidate: string): bool {
    Trim(candidate) in numbers
  }

  // ----- Properties of the parse -----

  /** A number is collected exactly when some data line yields it. */
  lemma {:induction false} CollectMembers(data: seq<string>, t: string)
    ensures t in Collect(data) <==> exists j :: 0 <= j < |data| && LineNumber(data[j]) == Some(t)
    decreases |data|
  {
    if data != [] {
      var init := data[..|data| - 1];
      CollectMembers(init, t);
      if t in Collect(init) {
        var j :| 0 <= j < |init| && LineNumber(init[j]) == Some(t);
        assert data[j] == init[j];
      }
      if j :| 0 <= j < |data| && LineNumber(data[j]) == Some(t) {
        if j < |data| - 1 {
          assert init[j] == data[j];
        }
      }
    }
  }

  /** A number is in the set of a file exactly when some line after the header yields it. */
  lemma NumbersOfByLine(lines: seq<string>, t: string)
    ensures t in NumbersOf(lines) <==> exists i :: 1 <= i < |lines| && LineNumber(lines[i]) == Some(t)
  {
    if |lines| > 0 {
      var data := lines[1..];
      CollectMembers(data, t);
      if t in NumbersOf(lines) {
        var j :| 0 <= j < |data| && LineNumber(data[j]) == Some(t);
        assert lines[j + 1] == data[j];
      }
      if i :| 1 <= i < |lines| && LineNumber(lines[i]) == Some(t) {
        assert data[i - 1] == lines[i];
      }
    }
  }

  /**
   * Membership in the parsed set: `t` is in it exactly when some line after the header
   * is non-empty once trimmed and its trimmed first column is `t`, and `t` is non-empty.
   */
  lemma NumbersOfMembers(lines: seq<string>, t: string)
    ensures t in NumbersOf(lines) <==>
      t != [] && exists i :: 1 <= i < |lines| && Trim(lines[i]) != [] && Trim(FirstField(Trim(lines[i]))) == t
  {
    NumbersOfByLine(lines, t);
  }

  /** Every collected number is non-empty, its own trim, and contains no ',' or ';'. */
  lemma {:induction false} CollectedAreIdentifiers(data: seq<string>)
    ensures forall t :: t in Collect(data) ==> IsIdentifier(t)
    decreases |data|
  {
    if data != [] {
      CollectedAreIdentifiers(data[..|data| - 1]);
      LineNumberSpec(data[|data| - 1]);
    }
  }

  lemma ParsedAreIdentifiers(text: string)
    ensures forall t :: t in Parse(text) ==> t != [] && Trim(t) == t && ',' !in t && ';' !in t
  {
    CollectedAreIdentifiers(Split(text, '\n')[1..]);
  }

  /** The header line never matters: replacing line 0 leaves the set unchanged. */
  lemma HeaderIgnored(lines: seq<string>, header: string)
    requires |lines| >= 1
    ensures NumbersOf([header] + lines[1..]) == NumbersOf(lines)
  {
    assert ([header] + lines[1..])[1..] == lines[1..];
  }

  /** On text: whatever the first line says, the set is that of the lines after it. */
  lemma ParseIgnoresHeader(header: string, body: string)
    requires '\n' !in header
    ensures Parse(header + "\n" + body) == Collect(Split(body, '\n'))
  {
    SplitPrepend(header, '\n', body);
    assert ([header] + Split(body, '\n'))[1..] == Split(body, '\n');
  }

  /** Text that is only a header line, with or without a final newline, yields the empty set. */
  lemma HeaderOnly(header: string)
    requires '\n' !in header
    ensures Parse(header) == {}
    ensures Parse(header + "\n") == {}
  {
    SplitWithoutSep(header, '\n');
    ParseIgnoresHeader(header, "");
    assert header + "\n" + "" == header + "\n";
    assert Split("", '\n') == [""];
    assert Collect([""]) == Collect([]) + Contribution("");
  }

  /** A line made of whitespace only contributes nothing. */
  lemma BlankLineContributesNothing(line: string)
    requires AllWs(line)
    ensures Contribution(line) == {}
  {
    TrimSpec(line);
  }

  /** A line with no delimiter contributes its whole trimmed content. */
  lemma WholeLineWithoutDelimiter(line: string)
    requires Trim(line) != []
    requires ',' !in Trim(line) && ';' !in Trim(line)
    ensures Contribution(line) == {Trim(line)}
  {
    FirstFieldWhole(Trim(line));
    TrimIdempotent(line);
  }

  /** The '\r' a CRLF file leaves at the end of each line does not change what the line contributes. */
  lemma CarriageReturnIgnored(line: string)
    ensures LineNumber(line + "\r") == LineNumber(line)
  {
    TrimPadding([], line, "\r");
    assert [] + line + "\r" == line + "\r";
  }

  /** Building the set is a union over the lines: collecting two chunks gives the union of their sets. */
  lemma {:induction false} CollectAppend(d1: seq<string>, d2: seq<string>)
    ensures Collect(d1 + d2) == Collect(d1) + Collect(d2)
    decreases |d2|
  {
    if d2 == [] {
      assert d1 + d2 == d1;
    } else {
      var init := d2[..|d2| - 1];
      assert (d1 + d2)[..|d1 + d2| - 1] == d1 + init;
      CollectAppend(d1, init);
    }
  }

  /** The set depends only on which data lines occur: order and repetition do not matter. */
  lemma CollectSameLines(d1: seq<string>, d2: seq<string>)
    requires forall l :: l in d1 <==> l in d2
    ensures Collect(d1) == Collect(d2)
  {
    forall t ensures t in Collect(d1) ==> t in Collect(d2) {
      CollectMembers(d1, t);
      CollectMembers(d2, t);
      if t in Collect(d1) {
        var j :| 0 <= j < |d1| && LineNumber(d1[j]) == Some(t);
        assert d1[j] in d2;
        var k :| 0 <= k < |d2| && d2[k] == d1[j];
      }
    }
    forall t ensures t in Collect(d2) ==> t in Collect(d1) {
      CollectMembers(d1, t);
      CollectMembers(d2, t);
      if t in Collect(d2) {
        var j :| 0 <= j < |d2| && LineNumber(d2[j]) == Some(t);
        assert d2[j] in d1;
        var k :| 0 <= k < |d1| && d1[k] == d2[j];
      }
    }
  }

  /** A repeated data line adds nothing. */
  lemma DuplicateLineIgnored(data: seq<string>, line: string)
    requires line in data
    ensures Collect(data + [line]) == Collect(data)
  {
    CollectSameLines(data + [line], data);
  }

  /** Reordering the data lines gives the same set. */
  lemma ReorderedLinesSameSet(d1: seq<string>, d2: seq<string>)
    requires multiset(d1) == multiset(d2)
    ensures Collect(d1) == Collect(d2)
  {
    forall l ensures l in d1 <==> l in d2 {
      assert l in d1 <==> l in multiset(d1);
      assert l in d2 <==> l in multiset(d2);
    }
    CollectSameLines(d1, d2);
  }

  /**
   * On text: two files with the same header whose data lines are the same lines,
   * in any order and with any repetition, give the same set.
   */
  lemma ParseSameLines(header: string, d1: seq<string>, d2: seq<string>)
    requires '\n' !in header
    requires forall i :: 0 <= i < |d1| ==> '\n' !in d1[i]
    requires forall i :: 0 <= i < |d2| ==> '\n' !in d2[i]
    requires forall l :: l in d1 <==> l in d2
    ensures Parse(Join([header] + d1, '\n')) == Parse(Join([header] + d2, '\n'))
  {
    SplitOfJoin([header] + d1, '\n');
    SplitOfJoin([header] + d2, '\n');
    assert ([header] + d1)[1..] == d1;
    assert ([header] + d2)[1..] == d2;
    CollectSameLines(d1, d2);
  }

  // ----- Properties of the lookup -----

  /** An empty set answers false to every candidate. */
  lemma NothingListedInEmpty(candidate: string)
    ensures !IsListed({}, candidate)
  {
  }

  /** The lookup ignores whitespace around the candidate. */
  lemma ListedIgnoresPadding(numbers: set<string>, w1: string, candidate: string, w2: string)
    requires AllWs(w1) && AllWs(w2)
    ensures IsListed(numbers, w1 + candidate + w2) == IsListed(numbers, candidate)
  {
    TrimPadding(w1, candidate, w2);
  }

  /** Against a parsed file, a candidate is valid exactly when some data line yields its trimmed value. */
  lemma ListedInParse(text: string, candidate: string)
    ensures IsListed(Parse(text), candidate) <==>
      exists i :: 1 <= i < |Split(text, '\n')| && LineNumber(Split(text, '\n')[i]) == Some(Trim(candidate))
  {
    var lines := Split(text, '\n');
    NumbersOfByLine(lines, Trim(candidate));
    assert IsListed(Parse(text), candidate) == (Trim(candidate) in NumbersOf(lines));
  }

  /** A blank candidate is never valid against a parsed file. */
  lemma BlankNeverListed(text: string, candidate: string)
    requires AllWs(candidate)
    ensures !IsListed(Parse(text), candidate)
  {
    ParsedAreIdentifiers(text);
    TrimSpec(candidate);
  }
}
