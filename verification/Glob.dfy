/** The translation of name filters with '*' into regular expressions, and what the
    translation preserves. */
module Glob {
  import opened Regex

  /** The meaning of a filter: '*' stands for any text, other characters for themselves
      whatever their case. */
  predicate GlobMatch(p: string, name: string)
    decreases |p| + |name|
  {
    if p == [] then name == []
    else if p[0] == '*' then GlobMatch(p[1..], name) || (name != [] && GlobMatch(p, name[1..]))
    else name != [] && SameLetter(p[0], name[0]) && GlobMatch(p[1..], name[1..])
  }

  // ----- the string that is built -----------------------------------------------------

  function Body(p: string): string {
    if p == [] then [] else (if p[0] == '*' then ".*" else [p[0]]) + Body(p[1..])
  }

  function Build(p: string): string {
    "^" + Body(p) + "$"
  }

  lemma {:induction false} BodyConcat(p: string, q: string)
    ensures Body(p + q) == Body(p) + Body(q)
  {
    if p == [] {
      assert p + q == q;
    } else {
      assert (p + q)[1..] == p[1..] + q;
      BodyConcat(p[1..], q);
    }
  }

  lemma {:induction false} BodyOfPlain(p: string)
    requires '*' !in p
    ensures Body(p) == p
  {
    if p != [] {
      BodyOfPlain(p[1..]);
    }
  }

  lemma {:induction false} BodySize(p: string)
    ensures |p| <= |Body(p)| <= 2 * |p|
    ensures '\0' !in p ==> '\0' !in Body(p)
  {
    if p != [] {
      BodySize(p[1..]);
    }
  }

  /** A C string in a buffer: the characters before the first NUL. */
  function CString(buf: seq<char>): string {
    if buf == [] || buf[0] == '\0' then [] else [buf[0]] + CString(buf[1..])
  }

  lemma {:induction false} CStringOf(buf: seq<char>, s: string)
    requires '\0' !in s && |s| < |buf| && buf[..|s|] == s && buf[|s|] == '\0'
    ensures CString(buf) == s
  {
    if s != [] {
      assert buf[0] == s[0] && buf[1..][..|s| - 1] == s[1..];
      CStringOf(buf[1..], s[1..]);
    }
  }

  /** strchrnul: the first c at or after from, or the end. */
  method StrChrNul(s: string, from: nat, c: char) returns (i: nat)
    requires from <= |s|
    ensures from <= i <= |s| && c !in s[from..i] && (i < |s| ==> s[i] == c)
  {
    i := from;
    while i < |s| && s[i] != c
      invariant from <= i <= |s| && c !in s[from..i]
    {
      i := i + 1;
    }
  }

  /** The pattern string for a filter, before the closing anchor. */
  function Opened(p: string): string {
    "^" + Body(p)
  }

  /** Piece by piece, one piece being the text up to and including the next '*'. */
  lemma PieceCopied(p: string, from: nat, next: nat)
    requires from <= next <= |p| && '*' !in p[from..next]
    ensures Opened(p[..from]) + p[from..next] == Opened(p[..next])
  {
    var head, piece := p[..from], p[from..next];
    assert p[..next] == head + piece;
    BodyConcat(head, piece);
    BodyOfPlain(piece);
    assert ("^" + Body(head)) + piece == "^" + (Body(head) + piece);
  }

  lemma PieceHasNoStar(p: string, from: nat, next: nat)
    requires from <= next <= |p| && '*' !in p[from..next]
    ensures '*' in p[..next] <==> '*' in p[..from]
  {
    assert p[..next] == p[..from] + p[from..next];
  }

  lemma PieceEnds(p: string, next: nat)
    requires next < |p| && p[next] == '*'
    ensures Opened(p[..next]) + ['.', '*'] == Opened(p[..next + 1])
    ensures '*' in p[..next + 1]
  {
    var head := p[..next];
    assert p[..next + 1] == head + "*" && p[..next + 1][next] == '*';
    BodyConcat(head, "*");
    assert Body("*") == ".*" + Body([]);
    assert ("^" + Body(head)) + ".*" == "^" + (Body(head) + ".*");
  }

  /** memcpy of p[from..next] to position pos. */
  method CopyText(buf: array<char>, pos: nat, p: string, from: nat, next: nat)
    requires from <= next <= |p| && pos + (next - from) <= buf.Length
    modifies buf
    ensures buf[..pos + (next - from)] == old(buf[..pos]) + p[from..next]
  {
    forall k | 0 <= k < next - from {
      buf[pos + k] := p[from + k];
    }
    assert buf[..pos] == old(buf[..pos]);
    assert buf[pos..pos + (next - from)] == p[from..next];
  }

  method PutTwo(buf: array<char>, pos: nat, c: char, d: char)
    requires pos + 2 <= buf.Length
    modifies buf
    ensures buf[..pos + 2] == old(buf[..pos]) + [c, d]
  {
    buf[pos] := c;
    buf[pos + 1] := d;
  }

  /** Copies the text up to the next '*' behind what has been written of the pattern. */
  method CopyPiece(buf: array<char>, pos: nat, p: string, from: nat) returns (next: nat)
    requires from <= |p| && 1 <= pos <= 2 * from + 1 && buf.Length == 2 * |p| + 3
    requires buf[..pos] == Opened(p[..from])
    modifies buf
    ensures from <= next <= |p| && (next < |p| ==> p[next] == '*')
    ensures buf[..pos + (next - from)] == Opened(p[..next])
    ensures '*' in p[..next] <==> '*' in p[..from]
  {
    next := StrChrNul(p, from, '*');
    PieceCopied(p, from, next);
    PieceHasNoStar(p, from, next);
    CopyText(buf, pos, p, from, next);
  }

  /** Writes the pattern into a buffer of 2 * len + 3 characters and compiles it; didOne
      tells that the filter names at most one declaration. */
  method BuildMatcher(p: string) returns (re: string, didOne: bool)
    requires '\0' !in p
    ensures re == Build(p)
    ensures didOne <==> '*' !in p
  {
    var buf := new char[2 * |p| + 3];
    buf[0] := '^';
    var pos, from := 1, 0;
    didOne := true;
    while true
      invariant 0 <= from <= |p| && 1 <= pos <= 2 * from + 1
      invariant buf[..pos] == Opened(p[..from])
      invariant didOne <==> '*' !in p[..from]
      decreases |p| - from
    {
      var next := CopyPiece(buf, pos, p, from);
      pos := pos + (next - from);
      if next == |p| {
        PutTwo(buf, pos, '$', '\0');
        Terminated(buf[..], p, pos);
        break;
      }
      didOne := false;
      PieceEnds(p, next);
      PutTwo(buf, pos, '.', '*');
      pos := pos + 2;
      from := next + 1;
    }
    re := CString(buf[..]);
  }

  lemma Terminated(buf: string, p: string, end: nat)
    requires '\0' !in p && end + 2 <= |buf| && buf[..end + 2] == Opened(p[..|p|]) + ['$', '\0']
    ensures CString(buf) == Build(p)
  {
    assert p[..|p|] == p;
    BodySize(p);
    var s := Build(p);
    assert Opened(p) + ['$', '\0'] == s + ['\0'];
    assert buf[..end + 2][..|s|] == s && buf[..end + 2][|s|] == '\0';
    CStringOf(buf, s);
  }

  // ----- the translation preserves meaning -----------------------------------------------

  /** What the pattern string means, item by item. */
  function ItemsOf(p: string): seq<Item> {
    if p == [] then []
    else [if p[0] == '*' then Item(Any, true) else Item(ParseAtom(p[0]), false)] + ItemsOf(p[1..])
  }

  lemma {:induction false} ParseBody(p: string)
    ensures ParseItems(Body(p)) == ItemsOf(p)
  {
    if p != [] {
      ParseBody(p[1..]);
      var rest := Body(p[1..]);
      assert rest != [] ==> rest[0] != '*';
      if p[0] == '*' {
        assert Body(p)[2..] == rest;
      } else {
        assert Body(p)[1..] == rest;
      }
    }
  }

  lemma ExecBuild(p: string, name: string)
    ensures Exec(Build(p), name) <==> ItemsMatch(ItemsOf(p), name)
  {
    var s := Build(p);
    assert s[1..] == Body(p) + "$" && s[1..][..|s| - 2] == Body(p);
    ParseBody(p);
    assert Parse(s) == Bre(true, ItemsOf(p), true);
    assert name[0..|name|] == name;
  }

  lemma {:induction false} ItemsMatchGlob(p: string, name: string)
    requires '.' !in p
    ensures ItemsMatch(ItemsOf(p), name) <==> GlobMatch(p, name)
    decreases |p| + |name|
  {
    if p != [] {
      assert ItemsOf(p)[1..] == ItemsOf(p[1..]);
      if p[0] == '*' {
        ItemsMatchGlob(p[1..], name);
        if name != [] {
          ItemsMatchGlob(p, name[1..]);
        }
      } else if name != [] {
        ItemsMatchGlob(p[1..], name[1..]);
      }
    }
  }

  /** The filter's characters for which this model of regular expressions is complete. */
  predicate Covered(p: string) {
    '\\' !in p && '[' !in p && '\0' !in p
  }

  /** The built expression accepts exactly the names the filter stands for. */
  lemma Preserved(p: string, name: string)
    requires Covered(p) && '.' !in p
    ensures Exec(Build(p), name) <==> GlobMatch(p, name)
  {
    ExecBuild(p, name);
    ItemsMatchGlob(p, name);
  }

  // ----- the period is not escaped ----------------------------------------------------

  /** A name the expression accepts although it has no period. */
  function WithoutPeriod(p: string): string {
    if p == [] then []
    else (if p[0] == '*' then [] else if p[0] == '.' then "x" else [p[0]]) + WithoutPeriod(p[1..])
  }

  lemma {:induction false} WithoutPeriodAccepted(p: string)
    ensures ItemsMatch(ItemsOf(p), WithoutPeriod(p))
    ensures '.' !in WithoutPeriod(p) && ('\0' !in p ==> '\0' !in WithoutPeriod(p))
  {
    if p != [] {
      WithoutPeriodAccepted(p[1..]);
      assert ItemsOf(p)[1..] == ItemsOf(p[1..]);
      if p[0] == '*' {
        assert WithoutPeriod(p) == WithoutPeriod(p[1..]);
      } else {
        assert WithoutPeriod(p)[1..] == WithoutPeriod(p[1..]);
      }
    }
  }

  lemma {:induction false} GlobNeedsPeriod(p: string, name: string)
    requires GlobMatch(p, name) && '.' in p
    ensures '.' in name
    decreases |p| + |name|
  {
    if p[0] == '*' {
      if GlobMatch(p[1..], name) {
        GlobNeedsPeriod(p[1..], name);
      } else {
        GlobNeedsPeriod(p, name[1..]);
      }
    } else if p[0] != '.' {
      GlobNeedsPeriod(p[1..], name[1..]);
    }
  }

  /** The translation is right for all names exactly if the filter has no period. */
  lemma ExactlyWithoutPeriod(p: string)
    requires Covered(p)
    ensures (forall name :: '\0' !in name ==> (Exec(Build(p), name) <==> GlobMatch(p, name))) <==> '.' !in p
  {
    if '.' in p {
      var name := WithoutPeriod(p);
      WithoutPeriodAccepted(p);
      ExecBuild(p, name);
      if GlobMatch(p, name) {
        GlobNeedsPeriod(p, name);
      }
    } else {
      forall name: string
        ensures Exec(Build(p), name) <==> GlobMatch(p, name)
      {
        Preserved(p, name);
      }
    }
  }

  /** And then it only accepts too much. */
  lemma {:induction false} NothingMissed(p: string, name: string)
    requires Covered(p) && GlobMatch(p, name)
    ensures Exec(Build(p), name)
  {
    ExecBuild(p, name);
    GlobAccepted(p, name);
  }

  lemma {:induction false} GlobAccepted(p: string, name: string)
    requires GlobMatch(p, name)
    ensures ItemsMatch(ItemsOf(p), name)
    decreases |p| + |name|
  {
    if p != [] {
      assert ItemsOf(p)[1..] == ItemsOf(p[1..]);
      if p[0] == '*' {
        if GlobMatch(p[1..], name) {
          GlobAccepted(p[1..], name);
        } else {
          GlobAccepted(p, name[1..]);
        }
      } else {
        GlobAccepted(p[1..], name[1..]);
      }
    }
  }

  // ----- what the filters mean, said without recursion ------------------------------------

  /** Text without '*' stands for itself, whatever the case of its letters. */
  lemma {:induction false} TextMeans(text: string, rest: string, name: string)
    requires '*' !in text
    ensures GlobMatch(text + rest, name) <==>
            |text| <= |name| && CaseVariant(text, name[..|text|]) && GlobMatch(rest, name[|text|..])
  {
    if text == [] {
      assert text + rest == rest && name[0..] == name;
    } else if name != [] {
      assert (text + rest)[1..] == text[1..] + rest;
      TextMeans(text[1..], rest, name[1..]);
      SameLetterExactly(text[0], name[0]);
      if |text| <= |name| {
        assert name[1..][|text| - 1..] == name[|text|..];
        VariantApart(text, name[..|text|]);
        assert name[..|text|][1..] == name[1..][..|text| - 1];
      }
    }
  }

  lemma VariantApart(x: string, y: string)
    requires |x| == |y| > 0
    ensures CaseVariant(x, y) <==> EqualButForCase(x[0], y[0]) && CaseVariant(x[1..], y[1..])
  {
    if EqualButForCase(x[0], y[0]) && CaseVariant(x[1..], y[1..]) {
      assert forall i :: 0 < i < |x| ==> x[i] == x[1..][i - 1] && y[i] == y[1..][i - 1];
    }
  }

  /** '*' stands for any text, the empty one included. */
  lemma {:induction false} StarMeans(rest: string, name: string)
    ensures GlobMatch("*" + rest, name) <==> exists j :: 0 <= j <= |name| && GlobMatch(rest, name[j..])
    decreases |name|
  {
    assert ("*" + rest)[1..] == rest && name[0..] == name;
    if name != [] {
      StarMeans(rest, name[1..]);
      assert forall j :: 0 <= j < |name| ==> name[1..][j..] == name[j + 1..];
      if exists j :: 0 <= j <= |name| && GlobMatch(rest, name[j..]) {
        var j :| 0 <= j <= |name| && GlobMatch(rest, name[j..]);
        assert j > 0 ==> name[1..][j - 1..] == name[j..];
      }
    }
  }

  /** A filter without '*' and '.' accepts its own text in any case, and nothing else. */
  lemma PlainExactly(p: string, name: string)
    requires Covered(p) && '.' !in p && '*' !in p
    ensures Exec(Build(p), name) <==> CaseVariant(p, name)
  {
    Preserved(p, name);
    TextMeans(p, "", name);
    assert p + "" == p;
    assert |p| == |name| ==> name[..|p|] == name;
  }

  // ----- case is ignored --------------------------------------------------------------------

  lemma AtomVariant(c: char, c': char, d: char, d': char)
    requires EqualButForCase(c, c') && EqualButForCase(d, d')
    ensures AtomMatches(ParseAtom(c), d) <==> AtomMatches(ParseAtom(c'), d')
    ensures c == '*' <==> c' == '*'
  {
    SameLetterExactly(c, c');
    SameLetterExactly(d, d');
    if c in "*." {
      NoLetter(c, c');
    } else if c' in "*." {
      SameLetterExactly(c', c);
      NoLetter(c', c);
    }
  }

  lemma {:induction false} ItemsVariant(p: string, p': string, name: string, name': string)
    requires CaseVariant(p, p') && CaseVariant(name, name')
    ensures ItemsMatch(ItemsOf(p), name) <==> ItemsMatch(ItemsOf(p'), name')
    decreases |p| + |name|
  {
    if p != [] {
      assert ItemsOf(p)[1..] == ItemsOf(p[1..]) && ItemsOf(p')[1..] == ItemsOf(p'[1..]);
      VariantApart(p, p');
      AtomVariant(p[0], p'[0], p[0], p'[0]);
      if p[0] == '*' {
        ItemsVariant(p[1..], p'[1..], name, name');
      }
      if name != [] {
        VariantApart(name, name');
        AtomVariant(p[0], p'[0], name[0], name'[0]);
        if p[0] == '*' {
          ItemsVariant(p, p', name[1..], name'[1..]);
        } else {
          ItemsVariant(p[1..], p'[1..], name[1..], name'[1..]);
        }
      }
    }
  }

  /** REG_ICASE: neither the case of a filter's letters nor that of a name's matters. */
  lemma CaseIgnored(p: string, p': string, name: string, name': string)
    requires CaseVariant(p, p') && CaseVariant(name, name')
    ensures Exec(Build(p), name) <==> Exec(Build(p'), name')
  {
    ExecBuild(p, name);
    ExecBuild(p', name');
    ItemsVariant(p, p', name, name');
  }
}
