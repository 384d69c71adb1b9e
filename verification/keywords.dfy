/** The keyword list and the name/ticker matcher of `KeywordMatcher`. */
module Keywords {
  import opened Wrappers
  import opened Strings

  /** A trimmed line is kept when it is non-empty and not a `#` comment. */
  predicate IsKeyword(line: string) {
    |line| > 0 && line[0] != '#'
  }

  /** `map(trim)` followed by `filter(IsKeyword)`: the trimmed keyword lines, in order. */
  function KeepKeywords(lines: seq<string>): (ks: seq<string>)
    ensures |ks| <= |lines|
    ensures forall k :: 0 <= k < |ks| ==> IsKeyword(ks[k])
    decreases |lines|
  {
    if |lines| == 0 then []
    else
      var tail := KeepKeywords(lines[1..]);
      var line := Trim(lines[0]);
      if IsKeyword(line) then [line] + tail else tail
  }

  /** The keyword list of a file's content: its `\n`-separated lines, trimmed and filtered. */
  function ParseKeywords(content: string): (ks: seq<string>)
    ensures |ks| <= |Split(content, '\n')|
    ensures forall k :: 0 <= k < |ks| ==> IsKeyword(ks[k])
  {
    KeepKeywords(Split(content, '\n'))
  }

  /** A matcher holds the keyword list of the last load. */
  datatype Matcher = Matcher(keywords: seq<string>)

  /** Loading: `None` is a missing or unreadable file, which leaves the list empty. */
  function Load(content: Option<string>): (m: Matcher)
    ensures content.None? ==> m.keywords == []
    ensures content.Some? ==> m.keywords == KeepKeywords(Split(content.value, '\n'))
  {
    match content
    case None => Matcher([])
    case Some(text) => Matcher(ParseKeywords(text))
  }

  /** `getKeywords` hands out a copy of the list; sequences are values, so the copy is the list. */
  function GetKeywords(m: Matcher): (ks: seq<string>)
    ensures |ks| == |m.keywords|
    ensures forall k :: 0 <= k < |ks| ==> ks[k] == m.keywords[k]
  {
    m.keywords
  }

  /** The name or the ticker alone is the letter z, in either case. */
  predicate IsStandaloneZ(name: string, ticker: string) {
    Lower(name) == "z" || Lower(ticker) == "z"
  }

  /** The lowered text the keywords are searched in: name, one space, ticker. */
  function SearchText(name: string, ticker: string): string {
    Lower(name + " " + ticker)
  }

  /** The keyword, lowered, occurs somewhere in the search text. */
  predicate Hits(keyword: string, name: string, ticker: string) {
    Includes(SearchText(name, ticker), Lower(keyword))
  }

  /** Reference definition of a match: a standalone z, or a hit of some keyword. */
  predicate IsMatch(keywords: seq<string>, name: string, ticker: string) {
    IsStandaloneZ(name, ticker) || exists k :: 0 <= k < |keywords| && Hits(keywords[k], name, ticker)
  }

  /** `matches`: the z check first, then the keywords in order until the first hit. */
  method Matches(m: Matcher, name: string, ticker: string) returns (found: bool)
    ensures found <==> IsMatch(m.keywords, name, ticker)
  {
    var searchText := Lower(name + " " + ticker);
    if Lower(name) == "z" || Lower(ticker) == "z" {
      return true;
    }
    var i := 0;
    while i < |m.keywords|
      invariant 0 <= i <= |m.keywords|
      invariant forall k :: 0 <= k < i ==> !Hits(m.keywords[k], name, ticker)
    {
      if Includes(searchText, Lower(m.keywords[i])) {
        return true;
      }
      i := i + 1;
    }
    return false;
  }
}
