/** The part of basic regular expressions (section 9.3 of POSIX.1-2017 XBD) that the
    name filter produces: ordinary characters, the period, the asterisk after an atom, and
    the two anchors, compiled with REG_ICASE. Backslashes and brackets are not part of it. */
module Regex {

  datatype Atom = Any | Char(c: char)

  datatype Item = Item(atom: Atom, star: bool)

  datatype Bre = Bre(fromStart: bool, items: seq<Item>, toEnd: bool)

  /** Case folding of the C locale. */
  function Fold(c: char): char {
    if 'A' <= c <= 'Z' then c - 'A' + 'a' else c
  }

  predicate SameLetter(c: char, d: char) {
    Fold(c) == Fold(d)
  }

  // ----- what REG_ICASE makes the same ------------------------------------------------

  const UPPER := "ABCDEFGHIJKLMNOPQRSTUVWXYZ"
  const LOWER := "abcdefghijklmnopqrstuvwxyz"

  /** The two cases of one letter. */
  predicate CasePair(c: char, d: char) {
    exists k :: 0 <= k < 26 && UPPER[k] == c && LOWER[k] == d
  }

  predicate EqualButForCase(c: char, d: char) {
    c == d || CasePair(c, d) || CasePair(d, c)
  }

  lemma Letters(k: nat)
    requires k < 26
    ensures |UPPER| == |LOWER| == 26
    ensures UPPER[k] == 'A' + k as char && LOWER[k] == 'a' + k as char
  {
    assert k in {0, 1, 2, 3, 4, 5, 6, 7, 8, 9, 10, 11, 12, 13, 14, 15, 16, 17, 18, 19, 20, 21, 22, 23, 24, 25};
  }

  /** Two characters are the same exactly if they are equal or the two cases of one letter. */
  lemma SameLetterExactly(c: char, d: char)
    ensures SameLetter(c, d) <==> EqualButForCase(c, d)
  {
    if c != d && SameLetter(c, d) {
      var k := (if c < d then c else d) as nat - 'A' as nat;
      Letters(k);
      assert CasePair(if c < d then c else d, if c < d then d else c);
    }
    forall k | 0 <= k < 26
      ensures SameLetter(UPPER[k], LOWER[k])
    {
      Letters(k);
    }
  }

  /** Texts that differ in the case of letters only. */
  predicate CaseVariant(x: string, y: string) {
    |x| == |y| && forall i :: 0 <= i < |x| ==> EqualButForCase(x[i], y[i])
  }

  lemma NoLetter(c: char, d: char)
    requires EqualButForCase(c, d) && c in "*."
    ensures c == d
  {
    SameLetterExactly(c, d);
  }

  function ParseAtom(c: char): Atom {
    if c == '.' then Any else Char(c)
  }

  /** An asterisk that follows an atom repeats it; one that comes first stands for itself. */
  function ParseItems(s: string): seq<Item> {
    if s == [] then []
    else if |s| > 1 && s[1] == '*' then [Item(ParseAtom(s[0]), true)] + ParseItems(s[2..])
    else [Item(ParseAtom(s[0]), false)] + ParseItems(s[1..])
  }

  /** A circumflex is an anchor in first place only, a dollar sign in last place only. */
  function Parse(s: string): Bre {
    var fromStart := s != [] && s[0] == '^';
    var rest := if fromStart then s[1..] else s;
    var toEnd := rest != [] && rest[|rest| - 1] == '$';
    Bre(fromStart, ParseItems(if toEnd then rest[..|rest| - 1] else rest), toEnd)
  }

  predicate AtomMatches(a: Atom, c: char) {
    a.Any? || SameLetter(a.c, c)
  }

  /** The items match the whole of the text. */
  predicate ItemsMatch(items: seq<Item>, text: string)
    decreases |items| + |text|
  {
    if items == [] then text == []
    else if items[0].star then
      || ItemsMatch(items[1..], text)
      || (text != [] && AtomMatches(items[0].atom, text[0]) && ItemsMatch(items, text[1..]))
    else text != [] && AtomMatches(items[0].atom, text[0]) && ItemsMatch(items[1..], text[1..])
  }

  /** regexec: some part of the text matches, at the ends that are anchored. */
  predicate Search(re: Bre, text: string) {
    exists i, j :: 0 <= i <= j <= |text| && (re.fromStart ==> i == 0) && (re.toEnd ==> j == |text|) &&
                   ItemsMatch(re.items, text[i..j])
  }

  predicate Exec(pattern: string, text: string) {
    Search(Parse(pattern), text)
  }
}
