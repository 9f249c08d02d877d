/** Python's string operations on ASCII text. */
module Text {
  import opened Options
  import opened Decimal

  predicate Free(s: string, sep: char) {
    sep !in s
  }

  /** s.split(sep, 1), none where Python's unpacking of the result into two names fails. */
  function SplitFirst(s: string, sep: char): Option<(string, string)> {
    if s == "" then None
    else if s[0] == sep then Some(("", s[1..]))
    else
      var (head, rest) :- SplitFirst(s[1..], sep);
      Some(([s[0]] + head, rest))
  }

  lemma {:induction false} SplitFirstOfJoined(head: string, sep: char, rest: string)
    requires Free(head, sep)
    ensures SplitFirst(head + [sep] + rest, sep) == Some((head, rest))
  {
    var s := head + [sep] + rest;
    if head == "" {
      assert s[1..] == rest;
    } else {
      assert s[0] == head[0] && s[0] in head;
      assert s[1..] == head[1..] + [sep] + rest;
      SplitFirstOfJoined(head[1..], sep, rest);
      assert head == [head[0]] + head[1..];
    }
  }

  lemma {:induction false} SplitFirstParts(s: string, sep: char)
    ensures SplitFirst(s, sep).None? <==> Free(s, sep)
    ensures SplitFirst(s, sep).Some? ==>
              var (head, rest) := SplitFirst(s, sep).value; Free(head, sep) && s == head + [sep] + rest
  {
    if s != "" && s[0] != sep {
      SplitFirstParts(s[1..], sep);
      assert s == [s[0]] + s[1..];
    }
  }

  lemma NumeralIsFree(n: nat, sep: char)
    requires !IsDigit(sep)
    ensures Free(Numeral(n), sep)
  {
  }

  /** s.split(sep) */
  function SplitAll(s: string, sep: char): (parts: seq<string>)
    ensures |parts| > 0
    decreases |s|
  {
    var first := SplitFirst(s, sep);
    if first.None? then [s]
    else
      SplitFirstParts(s, sep);
      [first.value.0] + SplitAll(first.value.1, sep)
  }

  lemma SplitAllOfFree(s: string, sep: char)
    requires Free(s, sep)
    ensures SplitAll(s, sep) == [s]
  {
    SplitFirstParts(s, sep);
  }

  lemma SplitAllOfJoined(head: string, sep: char, rest: string)
    requires Free(head, sep)
    ensures SplitAll(head + [sep] + rest, sep) == [head] + SplitAll(rest, sep)
  {
    SplitFirstOfJoined(head, sep, rest);
  }

  /** The first part, the separator and the text that the other parts come from. */
  lemma SplitAllStep(s: string, sep: char) returns (rest: string)
    requires |SplitAll(s, sep)| > 1
    ensures s == SplitAll(s, sep)[0] + [sep] + rest
    ensures SplitAll(rest, sep) == SplitAll(s, sep)[1..]
  {
    SplitFirstParts(s, sep);
    rest := SplitFirst(s, sep).value.1;
  }

  predicate IsSpace(c: char) {
    c in " \t\n\r" || c == 0x0b as char || c == 0x0c as char
  }

  /** s.strip() */
  function Strip(s: string): string {
    if s != "" && IsSpace(s[0]) then Strip(s[1..])
    else if s != "" && IsSpace(s[|s| - 1]) then Strip(s[..|s| - 1])
    else s
  }

  /** str.isalpha() of one character */
  predicate IsLetter(c: char) {
    'a' <= c <= 'z' || 'A' <= c <= 'Z'
  }
}
