/**
 String operations of the two host languages that the path, key and quoting code relies on:
 trimming, splitting on a separator, and joining.
 */
module Text {

  /* Characters that ECMAScript's String.prototype.trim removes (WhiteSpace and LineTerminator). */
  predicate IsJsSpace(c: char) {
    || '\U{0009}' <= c <= '\U{000D}' || c == ' ' || c == '\U{00A0}' || c == '\U{1680}'
    || '\U{2000}' <= c <= '\U{200A}' || c == '\U{2028}' || c == '\U{2029}' || c == '\U{202F}'
    || c == '\U{205F}' || c == '\U{3000}' || c == '\U{FEFF}'
  }

  /* Characters that Go's strings.TrimSpace removes (unicode.IsSpace). */
  predicate IsGoSpace(c: char) {
    || '\U{0009}' <= c <= '\U{000D}' || c == ' ' || c == '\U{0085}' || c == '\U{00A0}' || c == '\U{1680}'
    || '\U{2000}' <= c <= '\U{200A}' || c == '\U{2028}' || c == '\U{2029}' || c == '\U{202F}'
    || c == '\U{205F}' || c == '\U{3000}'
  }

  function TrimStart(isSpace: char -> bool, s: string): string {
    if s != "" && isSpace(s[0]) then TrimStart(isSpace, s[1..]) else s
  }

  function TrimEnd(isSpace: char -> bool, s: string): string {
    if s != "" && isSpace(s[|s| - 1]) then TrimEnd(isSpace, s[..|s| - 1]) else s
  }

  function Trim(isSpace: char -> bool, s: string): string {
    TrimEnd(isSpace, TrimStart(isSpace, s))
  }

  predicate Trimmed(isSpace: char -> bool, s: string) {
    s == "" || (!isSpace(s[0]) && !isSpace(s[|s| - 1]))
  }

  lemma {:induction false} TrimStartDropsPrefix(isSpace: char -> bool, s: string) returns (n: nat)
    ensures n <= |s| && TrimStart(isSpace, s) == s[n..]
    ensures n < |s| ==> !isSpace(s[n])
    ensures forall i :: 0 <= i < n ==> isSpace(s[i])
  {
    if s != "" && isSpace(s[0]) {
      var m := TrimStartDropsPrefix(isSpace, s[1..]);
      n := m + 1;
      assert forall i :: 0 < i < n ==> s[i] == s[1..][i - 1];
    } else {
      n := 0;
    }
  }

  lemma {:induction false} TrimEndKeepsPrefix(isSpace: char -> bool, s: string) returns (n: nat)
    ensures n <= |s| && TrimEnd(isSpace, s) == s[..n]
    ensures n > 0 ==> !isSpace(s[n - 1])
    ensures forall i :: n <= i < |s| ==> isSpace(s[i])
  {
    if s != "" && isSpace(s[|s| - 1]) {
      n := TrimEndKeepsPrefix(isSpace, s[..|s| - 1]);
      assert s[..|s| - 1][..n] == s[..n];
      assert forall i :: n <= i < |s| - 1 ==> s[i] == s[..|s| - 1][i];
    } else {
      n := |s|;
      assert s[..n] == s;
    }
  }

  /** Trimming takes away spaces at both ends and nothing else, and leaves no space at either end. */
  lemma TrimKeepsTheMiddle(isSpace: char -> bool, s: string) returns (n: nat, m: nat)
    ensures n <= m <= |s| && Trim(isSpace, s) == s[n..m] && Trimmed(isSpace, s[n..m])
    ensures forall i :: 0 <= i < n || m <= i < |s| ==> isSpace(s[i])
  {
    n := TrimStartDropsPrefix(isSpace, s);
    var k := TrimEndKeepsPrefix(isSpace, s[n..]);
    m := n + k;
    assert s[n..][..k] == s[n..m];
    assert forall i :: m <= i < |s| ==> s[i] == s[n..][i - n];
  }

  /** What is left after trimming is a trimmed slice of the input; a trimmed string is left alone. */
  lemma TrimProperties(isSpace: char -> bool, s: string)
    ensures Trimmed(isSpace, Trim(isSpace, s))
    ensures forall c :: c in Trim(isSpace, s) ==> c in s
    ensures Trimmed(isSpace, s) ==> Trim(isSpace, s) == s
  {
    var n := TrimStartDropsPrefix(isSpace, s);
    var m := TrimEndKeepsPrefix(isSpace, s[n..]);
  }

  /** The pieces of s between occurrences of sep; never empty. */
  function Split(sep: char, s: string): (parts: seq<string>)
    ensures |parts| > 0
    ensures forall part :: part in parts ==> sep !in part
    ensures forall part, c :: part in parts && c in part ==> c in s
  {
    if s == "" then [""]
    else
      var rest := Split(sep, s[1..]);
      if s[0] == sep then [""] + rest else [[s[0]] + rest[0]] + rest[1..]
  }

  function Join(sep: char, parts: seq<string>): string {
    if parts == [] then ""
    else if |parts| == 1 then parts[0]
    else parts[0] + [sep] + Join(sep, parts[1..])
  }

  lemma {:induction false} JoinOfSplit(sep: char, s: string)
    ensures Join(sep, Split(sep, s)) == s
  {
    if s != "" {
      JoinOfSplit(sep, s[1..]);
      var rest := Split(sep, s[1..]);
      if s[0] == sep {
        assert ([""] + rest)[1..] == rest;
      } else {
        assert ([[s[0]] + rest[0]] + rest[1..])[1..] == rest[1..];
      }
    }
  }

  lemma {:induction false} SplitWithoutSeparator(sep: char, s: string)
    requires sep !in s
    ensures Split(sep, s) == [s]
  {
    if s != "" {
      SplitWithoutSeparator(sep, s[1..]);
      assert [s[0]] + s[1..] == s;
    }
  }

  lemma {:induction false} SplitAfterSeparator(sep: char, part: string, rest: string)
    requires sep !in part
    ensures Split(sep, part + [sep] + rest) == [part] + Split(sep, rest)
  {
    var s := part + [sep] + rest;
    if part == "" {
      assert s[1..] == rest;
    } else {
      SplitAfterSeparator(sep, part[1..], rest);
      assert s[1..] == part[1..] + [sep] + rest;
      assert [part[0]] + part[1..] == part;
      assert Split(sep, s[1..])[1..] == Split(sep, rest);
    }
  }

  /** Splitting a join gives the parts back, so joining is injective on separator-free parts. */
  lemma {:induction false} SplitOfJoin(sep: char, parts: seq<string>)
    requires |parts| > 0
    requires forall part :: part in parts ==> sep !in part
    ensures Split(sep, Join(sep, parts)) == parts
  {
    if |parts| == 1 {
      SplitWithoutSeparator(sep, parts[0]);
    } else {
      SplitOfJoin(sep, parts[1..]);
      SplitAfterSeparator(sep, parts[0], Join(sep, parts[1..]));
    }
  }

  lemma {:induction false} JoinOfConcat(sep: char, a: seq<string>, b: seq<string>)
    requires a != [] && b != []
    ensures Join(sep, a + b) == Join(sep, a) + [sep] + Join(sep, b)
  {
    assert (a + b)[1..] == a[1..] + b;
    if |a| > 1 {
      JoinOfConcat(sep, a[1..], b);
    }
  }
}
