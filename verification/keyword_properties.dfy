/** Properties of keyword loading and matching. */
module KeywordProperties {
  import opened Wrappers
  import opened Strings
  import opened Keywords

  /** Filtering distributes over concatenation of line lists. */
  lemma {:induction false} KeepKeywordsConcat(a: seq<string>, b: seq<string>)
    ensures KeepKeywords(a + b) == KeepKeywords(a) + KeepKeywords(b)
    decreases |a|
  {
    if |a| > 0 {
      assert (a + b)[1..] == a[1..] + b;
      KeepKeywordsConcat(a[1..], b);
    } else {
      assert a + b == b;
    }
  }

  /** `w` is the trim of one of the lines. */
  ghost predicate TrimOfSome(w: string, lines: seq<string>) {
    exists i :: 0 <= i < |lines| && w == Trim(lines[i])
  }

  lemma TrimOfSomeCons(w: string, lines: seq<string>)
    requires |lines| > 0 && TrimOfSome(w, lines[1..])
    ensures TrimOfSome(w, lines)
  {
    var i :| 0 <= i < |lines[1..]| && w == Trim(lines[1..][i]);
    assert lines[1..][i] == lines[i + 1];
  }

  /** Every kept keyword is the trim of some line. */
  lemma {:induction false} KeepKeywordsSound(lines: seq<string>)
    ensures forall k :: 0 <= k < |KeepKeywords(lines)| ==> TrimOfSome(KeepKeywords(lines)[k], lines)
    decreases |lines|
  {
    if |lines| > 0 {
      var tail := lines[1..];
      var rest := KeepKeywords(tail);
      KeepKeywordsSound(tail);
      forall k | 0 <= k < |rest|
        ensures TrimOfSome(rest[k], lines)
      {
        TrimOfSomeCons(rest[k], lines);
      }
      var line := Trim(lines[0]);
      if IsKeyword(line) {
        assert TrimOfSome(line, lines);
        assert KeepKeywords(lines) == [line] + rest;
      } else {
        assert KeepKeywords(lines) == rest;
      }
    }
  }

  /** Every line whose trim is a keyword is kept. */
  lemma {:induction false} KeepKeywordsComplete(lines: seq<string>)
    ensures forall i :: 0 <= i < |lines| && IsKeyword(Trim(lines[i])) ==> Trim(lines[i]) in KeepKeywords(lines)
    decreases |lines|
  {
    if |lines| > 0 {
      var tail := lines[1..];
      KeepKeywordsComplete(tail);
      forall i | 1 <= i < |lines| && IsKeyword(Trim(lines[i]))
        ensures Trim(lines[i]) in KeepKeywords(lines)
      {
        assert lines[i] == tail[i - 1];
      }
    }
  }

  /** One line contributes its trimmed text exactly when that is a keyword. */
  lemma KeepKeywordsSingle(line: string)
    ensures KeepKeywords([line]) == if IsKeyword(Trim(line)) then [Trim(line)] else []
  {
    assert [line][1..] == [];
  }

  /** Appending a line to the file appends at most its keyword, after the earlier ones. */
  lemma ParseKeywordsAppendLine(content: string, line: string)
    requires '\n' !in line
    ensures ParseKeywords(content + "\n" + line) ==
              ParseKeywords(content) + (if IsKeyword(Trim(line)) then [Trim(line)] else [])
  {
    SplitConcat(content, line, '\n');
    SplitWithoutSeparator(line, '\n');
    KeepKeywordsConcat(Split(content, '\n'), [line]);
    KeepKeywordsSingle(line);
  }

  /** A file written line by line loads as the keywords among its trimmed lines. */
  lemma ParseKeywordsOfLines(lines: seq<string>)
    requires |lines| >= 1
    requires forall k :: 0 <= k < |lines| ==> '\n' !in lines[k]
    ensures ParseKeywords(Join(lines, '\n')) == KeepKeywords(lines)
  {
    SplitJoin(lines, '\n');
  }

  /** The list is empty exactly when every line is blank or a comment after trimming. */
  lemma EmptyIffNoKeywordLine(lines: seq<string>)
    ensures KeepKeywords(lines) == [] <==> forall i :: 0 <= i < |lines| ==> !IsKeyword(Trim(lines[i]))
  {
    var ks := KeepKeywords(lines);
    KeepKeywordsComplete(lines);
    if ks != [] {
      KeepKeywordsSound(lines);
      assert IsKeyword(ks[0]) && TrimOfSome(ks[0], lines);
      var i :| 0 <= i < |lines| && ks[0] == Trim(lines[i]);
    }
  }

  /** Every loaded keyword is trimmed, non-empty and not a comment. */
  lemma LoadedKeywordsWellFormed(content: Option<string>)
    ensures forall k :: 0 <= k < |Load(content).keywords| ==>
              var w := Load(content).keywords[k];
              |w| > 0 && w[0] != '#' && Trim(w) == w
  {
    var ks := Load(content).keywords;
    if content.Some? {
      var lines := Split(content.value, '\n');
      KeepKeywordsSound(lines);
      forall k | 0 <= k < |ks|
        ensures Trim(ks[k]) == ks[k]
      {
        assert TrimOfSome(ks[k], lines);
        var i :| 0 <= i < |lines| && ks[k] == Trim(lines[i]);
        TrimIdempotent(lines[i]);
      }
    }
  }

  /** `getKeywords` reports exactly what the last load parsed. */
  lemma GetKeywordsAfterLoad(content: string)
    ensures GetKeywords(Load(Some(content))) == ParseKeywords(content)
  {
  }

  /** A file of one line loads as that line's keyword, if it is one. */
  lemma ParseKeywordsOneLine(line: string)
    requires '\n' !in line
    ensures ParseKeywords(line) == if IsKeyword(Trim(line)) then [Trim(line)] else []
  {
    SplitWithoutSeparator(line, '\n');
    KeepKeywordsSingle(line);
  }

  /** A comment line adds nothing, however it is indented: the `#` test runs after trimming. */
  lemma IndentedCommentIgnored(indent: string, comment: string)
    requires AllSpace(indent)
    requires |comment| > 0 && comment[0] == '#'
    requires '\n' !in indent + comment
    ensures ParseKeywords(indent + comment) == []
  {
    assert !IsJsSpace('#');
    TrimStartsAt(indent, comment);
    ParseKeywordsOneLine(indent + comment);
  }

  /** A line of white space adds nothing. */
  lemma BlankLineIgnored(line: string)
    requires AllSpace(line) && '\n' !in line
    ensures ParseKeywords(line) == []
  {
    ParseKeywordsOneLine(line);
  }

  /** The lines of a file saved with Windows line endings: each ends in a carriage return. */
  function WithCarriageReturns(lines: seq<string>): (r: seq<string>)
    ensures |r| == |lines|
    ensures forall k :: 0 <= k < |lines| ==> r[k] == lines[k] + "\r"
  {
    seq(|lines|, k requires 0 <= k < |lines| => lines[k] + "\r")
  }

  lemma {:induction false} KeepKeywordsIgnoresCarriageReturns(lines: seq<string>)
    ensures KeepKeywords(WithCarriageReturns(lines)) == KeepKeywords(lines)
    decreases |lines|
  {
    if |lines| > 0 {
      var cr := WithCarriageReturns(lines);
      assert cr[1..] == WithCarriageReturns(lines[1..]);
      KeepKeywordsIgnoresCarriageReturns(lines[1..]);
      assert IsJsSpace('\r');
      assert cr[0] == lines[0] + ['\r'];
      TrimAppendSpace(lines[0], '\r');
    }
  }

  /** A file with Windows line endings loads the same keywords as with Unix ones: the
      `\r` left at the end of each line is trimmed away. */
  lemma CarriageReturnTrimmed(lines: seq<string>)
    requires |lines| >= 1
    requires forall k :: 0 <= k < |lines| ==> '\n' !in lines[k]
    ensures ParseKeywords(Join(WithCarriageReturns(lines), '\n')) == ParseKeywords(Join(lines, '\n'))
  {
    var cr := WithCarriageReturns(lines);
    forall k | 0 <= k < |cr|
      ensures '\n' !in cr[k]
    {
      assert cr[k] == lines[k] + "\r";
    }
    ParseKeywordsOfLines(cr);
    ParseKeywordsOfLines(lines);
    KeepKeywordsIgnoresCarriageReturns(lines);
  }

  /** A standalone z matches whatever the keyword list. */
  lemma StandaloneZMatches(keywords: seq<string>, name: string, ticker: string)
    requires Lower(name) == "z" || Lower(ticker) == "z"
    ensures IsMatch(keywords, name, ticker)
  {
  }

  /** Without keywords only a standalone z matches. */
  lemma NoKeywordsOnlyZ(name: string, ticker: string)
    ensures IsMatch([], name, ticker) <==> IsStandaloneZ(name, ticker)
  {
  }

  /** More keywords never lose a match: the list behaves as a set of alternatives. */
  lemma MatchMonotone(ks: seq<string>, more: seq<string>, name: string, ticker: string)
    requires forall k :: 0 <= k < |ks| ==> ks[k] in more
    requires IsMatch(ks, name, ticker)
    ensures IsMatch(more, name, ticker)
  {
    if !IsStandaloneZ(name, ticker) {
      var k :| 0 <= k < |ks| && Hits(ks[k], name, ticker);
      var j :| 0 <= j < |more| && more[j] == ks[k];
      assert Hits(more[j], name, ticker);
    }
  }

  /** The order of the keywords does not change the verdict: any permutation of the
      list, and any repetition pattern of the same keywords, matches alike. */
  lemma MatchOrderIndependent(ks: seq<string>, reordered: seq<string>, name: string, ticker: string)
    requires multiset(reordered) == multiset(ks)
    ensures IsMatch(reordered, name, ticker) <==> IsMatch(ks, name, ticker)
  {
    forall k | 0 <= k < |ks|
      ensures ks[k] in reordered
    {
      assert ks[k] in multiset(ks);
    }
    forall k | 0 <= k < |reordered|
      ensures reordered[k] in ks
    {
      assert reordered[k] in multiset(reordered);
    }
    if IsMatch(ks, name, ticker) {
      MatchMonotone(ks, reordered, name, ticker);
    }
    if IsMatch(reordered, name, ticker) {
      MatchMonotone(reordered, ks, name, ticker);
    }
  }

  lemma LowerSpace()
    ensures Lower(" ") == " "
  {
  }

  /** Matching ignores the case of the name and the ticker. */
  lemma MatchIgnoresCase(ks: seq<string>, name: string, ticker: string)
    ensures IsMatch(ks, Lower(name), Lower(ticker)) <==> IsMatch(ks, name, ticker)
  {
    LowerIdempotent(name);
    LowerIdempotent(ticker);
    LowerConcat(name, " " + ticker);
    LowerConcat(" ", ticker);
    LowerConcat(Lower(name), " " + Lower(ticker));
    LowerConcat(" ", Lower(ticker));
    LowerSpace();
    assert name + " " + ticker == name + (" " + ticker);
    assert Lower(name) + " " + Lower(ticker) == Lower(name) + (" " + Lower(ticker));
    assert SearchText(Lower(name), Lower(ticker)) == SearchText(name, ticker);
  }

  /** Matching ignores the case of the keywords. */
  lemma MatchIgnoresKeywordCase(ks: seq<string>, name: string, ticker: string)
    ensures IsMatch(seq(|ks|, k requires 0 <= k < |ks| => Lower(ks[k])), name, ticker) <==> IsMatch(ks, name, ticker)
  {
    var lowered := seq(|ks|, k requires 0 <= k < |ks| => Lower(ks[k]));
    forall k | 0 <= k < |ks|
      ensures Hits(lowered[k], name, ticker) == Hits(ks[k], name, ticker)
    {
      LowerIdempotent(ks[k]);
    }
  }

  /** Name and ticker are searched as one text, so a keyword can span the space between them. */
  lemma KeywordSpansNameAndTicker()
    ensures Hits("pepe coin", "Pepe", "COIN")
    ensures !IsStandaloneZ("Pepe", "COIN")
  {
    assert Lower("Pepe" + " " + "COIN") == "pepe coin";
    assert Lower("pepe coin") == "pepe coin";
    assert OccursAt("pepe coin", "pepe coin", 0);
  }
}
