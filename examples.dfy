/** Three example files, proved to parse to the expected sets, and lookups against them. */
module ParseExamples {
  import opened Wrappers
  import opened Text
  import opened Registry

  /** A header, a comma row, a semicolon row, a row padded around its first column, a final newline. */
  const MixedFile: string := "id\n123,ACME\n456;Other\n 789 ,X\n"

  /** A header, a single-column row, a blank row, a two-column row, a final newline. */
  const SparseFile: string := "h\n111\n\n222,extra\n"

  /** Only a header line. */
  const HeaderFile: string := "header only line\n"

  lemma CollectFour(a: string, b: string, c: string, d: string)
    ensures Collect([a, b, c, d]) == Contribution(a) + Contribution(b) + Contribution(c) + Contribution(d)
  {
    assert [a, b, c, d][..3] == [a, b, c];
    assert [a, b, c][..2] == [a, b];
    assert [a, b][..1] == [a];
    assert [a][..0] == [];
    assert Collect([a]) == Contribution(a);
    assert Collect([a, b]) == Contribution(a) + Contribution(b);
    assert Collect([a, b, c]) == Contribution(a) + Contribution(b) + Contribution(c);
  }

  /** Four rows whose contributions are known. */
  lemma CollectRows(a: string, b: string, c: string, d: string, ca: set<string>, cb: set<string>, cc: set<string>, cd: set<string>)
    requires Contribution(a) == ca && Contribution(b) == cb && Contribution(c) == cc && Contribution(d) == cd
    ensures Collect([a, b, c, d]) == ca + cb + cc + cd
  {
    CollectFour(a, b, c, d);
  }

  /** A row whose first column needs no trimming. */
  lemma PlainRow(row: string, number: string, d: char, rest: string)
    requires row == number + [d] + rest
    requires Trimmed(number) && number != [] && ',' !in number && ';' !in number && IsDelimiter(d)
    requires Trimmed(row)
    ensures Contribution(row) == {number}
  {
    TrimOfTrimmed(number + [d] + rest);
    FirstFieldAt(number, d, rest);
    TrimOfTrimmed(number);
  }

  lemma PaddedRow()
    ensures Contribution(" 789 ,X") == {"789"}
  {
    assert " 789 ,X" == " " + "789 ,X" + "";
    TrimCharacterization(" ", "789 ,X", "");
    assert "789 ,X" == "789 " + [','] + "X";
    FirstFieldAt("789 ", ',', "X");
    assert "789 " == "" + "789" + " ";
    TrimCharacterization("", "789", " ");
  }

  lemma SplitMixed()
    ensures Split(MixedFile, '\n') == ["id", "123,ACME", "456;Other", " 789 ,X", ""]
  {
    var parts := ["id", "123,ACME", "456;Other", " 789 ,X", ""];
    assert Join(parts, '\n') == MixedFile;
    SplitOfJoin(parts, '\n');
  }

  /** A comma ends the first column. */
  lemma CommaRow()
    ensures Contribution("123,ACME") == {"123"}
  {
    PlainRow("123,ACME", "123", ',', "ACME");
  }

  /** A semicolon ends the first column. */
  lemma SemicolonRow()
    ensures Contribution("456;Other") == {"456"}
  {
    PlainRow("456;Other", "456", ';', "Other");
  }

  /** The empty last piece after the final newline. */
  lemma EmptyRow()
    ensures Contribution("") == {}
  {
    BlankLineContributesNothing("");
  }

  lemma MixedRows()
    ensures Collect(["123,ACME", "456;Other", " 789 ,X", ""]) == {"123", "456", "789"}
  {
    CommaRow();
    SemicolonRow();
    PaddedRow();
    EmptyRow();
    CollectRows("123,ACME", "456;Other", " 789 ,X", "", {"123"}, {"456"}, {"789"}, {});
  }

  /** Comma and semicolon rows and padding around the first column: three numbers. */
  lemma MixedDelimiters()
    ensures Parse(MixedFile) == {"123", "456", "789"}
  {
    SplitMixed();
    assert ["id", "123,ACME", "456;Other", " 789 ,X", ""][1..] == ["123,ACME", "456;Other", " 789 ,X", ""];
    MixedRows();
  }

  /** Lookups against that file: exact and padded numbers are valid, an unknown one is not. */
  lemma MixedDelimitersLookups()
    ensures IsListed(Parse(MixedFile), "123")
    ensures IsListed(Parse(MixedFile), " 123 ")
    ensures !IsListed(Parse(MixedFile), "999")
  {
    MixedDelimiters();
    MixedLookups(Parse(MixedFile));
  }

  lemma MixedLookups(numbers: set<string>)
    requires numbers == {"123", "456", "789"}
    ensures IsListed(numbers, "123") && IsListed(numbers, " 123 ") && !IsListed(numbers, "999")
  {
    TrimOfTrimmed("123");
    TrimOfTrimmed("999");
    assert " 123 " == " " + "123" + " ";
    TrimCharacterization(" ", "123", " ");
  }

  lemma SplitSparse()
    ensures Split(SparseFile, '\n') == ["h", "111", "", "222,extra", ""]
  {
    var parts := ["h", "111", "", "222,extra", ""];
    assert Join(parts, '\n') == SparseFile;
    SplitOfJoin(parts, '\n');
  }

  /** A row without delimiter is one column. */
  lemma SingleColumnRow()
    ensures Contribution("111") == {"111"}
  {
    TrimOfTrimmed("111");
    WholeLineWithoutDelimiter("111");
  }

  /** A comma ends the first column, whatever follows. */
  lemma TwoColumnRow()
    ensures Contribution("222,extra") == {"222"}
  {
    PlainRow("222,extra", "222", ',', "extra");
  }

  lemma SparseRows()
    ensures Collect(["111", "", "222,extra", ""]) == {"111", "222"}
  {
    SingleColumnRow();
    EmptyRow();
    TwoColumnRow();
    CollectRows("111", "", "222,extra", "", {"111"}, {}, {"222"}, {});
  }

  /** A blank row and a row without delimiter: two numbers. */
  lemma BlankAndSingleColumnRows()
    ensures Parse(SparseFile) == {"111", "222"}
  {
    SplitSparse();
    assert ["h", "111", "", "222,extra", ""][1..] == ["111", "", "222,extra", ""];
    SparseRows();
  }

  /** Only a header: the set is empty and every lookup answers false. */
  lemma HeaderOnlyFile(candidate: string)
    ensures Parse(HeaderFile) == {}
    ensures !IsListed(Parse(HeaderFile), candidate)
  {
    assert HeaderFile == "header only line" + "\n";
    HeaderOnly("header only line");
  }
}
