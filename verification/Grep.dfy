/** The regular-expression matcher of grep.c, against the language of its patterns. */
module Grep {
  import opened Basics

  // ----- patterns and their languages -----

  /** A pattern character: a literal or '.', once or starred. */
  datatype Item = One(c: char) | Star(c: char)

  /** `begin`: a leading ^; `end`: a final $. */
  datatype Pattern = Pattern(begin: bool, items: seq<Item>, end: bool)

  predicate Fits(c: char, x: char) { c == '.' || c == x }

  predicate InItem(item: Item, w: string)
  {
    match item
    case One(c) => |w| == 1 && Fits(c, w[0])
    case Star(c) => forall k :: 0 <= k < |w| ==> Fits(c, w[k])
  }

  /** w is a word for each item, one after the other. */
  ghost predicate InLanguage(items: seq<Item>, w: string)
  {
    if items == [] then w == []
    else exists k :: 0 <= k <= |w| && InItem(items[0], w[..k]) && InLanguage(items[1..], w[k..])
  }

  /** Some substring, at the beginning or the end if the pattern says so, is in the language of the items. */
  ghost predicate Occurs(p: Pattern, text: string)
  {
    exists a, b :: 0 <= a <= b <= |text| && (p.begin ==> a == 0) && (p.end ==> b == |text|)
        && InLanguage(p.items, text[a..b])
  }

  /** A C string holds no NUL. */
  predicate CString(s: string) { '\0' !in s }

  /** The items from position i on: a character before a star is starred, and a $ that ends the pattern is none. */
  function Items(re: string, i: nat): seq<Item>
    requires i <= |re|
    decreases |re| - i
  {
    if i == |re| then []
    else if Char(re, i + 1) == '*' then [Star(re[i])] + Items(re, i + 2)
    else if re[i] == '$' && i + 1 == |re| then []
    else [One(re[i])] + Items(re, i + 1)
  }

  predicate Ends(re: string, i: nat)
    requires i <= |re|
    decreases |re| - i
  {
    if i == |re| then false
    else if Char(re, i + 1) == '*' then Ends(re, i + 2)
    else (re[i] == '$' && i + 1 == |re|) || Ends(re, i + 1)
  }

  function Parse(re: string): Pattern
  {
    var start := if Char(re, 0) == '^' then 1 else 0;
    Pattern(start == 1, Items(re, start), Ends(re, start))
  }

  /** The pattern from position i occurs in text from position j. */
  ghost predicate Here(re: string, i: nat, text: string, j: nat)
    requires i <= |re| && j <= |text|
  {
    exists b :: j <= b <= |text| && (Ends(re, i) ==> b == |text|) && InLanguage(Items(re, i), text[j..b])
  }

  // ----- what one item does -----

  lemma {:induction false} FirstOne(c: char, rest: seq<Item>, text: string, j: nat, b: nat)
    requires j <= b <= |text|
    ensures InLanguage([One(c)] + rest, text[j..b]) <==> j < b && Fits(c, text[j]) && InLanguage(rest, text[j+1..b])
  {
    var items, w := [One(c)] + rest, text[j..b];
    assert items[1..] == rest;
    if InLanguage(items, w) {
      var k :| 0 <= k <= |w| && InItem(items[0], w[..k]) && InLanguage(items[1..], w[k..]);
      assert k == 1 && w[1..] == text[j+1..b];
    }
    if j < b && Fits(c, text[j]) && InLanguage(rest, text[j+1..b]) {
      assert w[1..] == text[j+1..b] && InItem(items[0], w[..1]) && InLanguage(items[1..], w[1..]);
    }
  }

  /** All characters from j to m fit c. */
  predicate Run(c: char, text: string, j: nat, m: nat)
  {
    m <= |text| && forall k :: j <= k < m ==> Fits(c, text[k])
  }

  lemma {:induction false} FirstStar(c: char, rest: seq<Item>, text: string, j: nat, b: nat)
    requires j <= b <= |text|
    ensures InLanguage([Star(c)] + rest, text[j..b]) <==>
            exists m: nat :: j <= m <= b && Run(c, text, j, m) && InLanguage(rest, text[m..b])
  {
    var items, w := [Star(c)] + rest, text[j..b];
    assert items[1..] == rest;
    if InLanguage(items, w) {
      var k :| 0 <= k <= |w| && InItem(items[0], w[..k]) && InLanguage(items[1..], w[k..]);
      assert w[k..] == text[j+k..b];
      forall x | j <= x < j + k ensures Fits(c, text[x]) { assert w[..k][x-j] == text[x]; }
      assert Run(c, text, j, j + k);
    }
    if m: nat :| j <= m <= b && Run(c, text, j, m) && InLanguage(rest, text[m..b]) {
      var k := m - j;
      assert w[k..] == text[m..b];
      forall x | 0 <= x < k ensures Fits(c, w[..k][x]) { assert w[..k][x] == text[j+x]; }
      assert InItem(items[0], w[..k]);
    }
  }

  lemma {:induction false} HereNil(re: string, i: nat, text: string, j: nat)
    requires i == |re| && j <= |text|
    ensures Here(re, i, text, j)
  {
    assert text[j..j] == [];
  }

  lemma {:induction false} HereEnd(re: string, i: nat, text: string, j: nat)
    requires i + 1 == |re| && re[i] == '$' && j <= |text|
    ensures Here(re, i, text, j) <==> j == |text|
  {
    assert text[|text|..|text|] == [];
    if Here(re, i, text, j) {
      var b :| j <= b <= |text| && (Ends(re, i) ==> b == |text|) && InLanguage(Items(re, i), text[j..b]);
      assert |text[j..b]| == b - j;
    }
  }

  lemma {:induction false} HereOne(re: string, i: nat, text: string, j: nat)
    requires i < |re| && j <= |text| && Char(re, i + 1) != '*' && !(re[i] == '$' && i + 1 == |re|)
    ensures Here(re, i, text, j) <==> j < |text| && Fits(re[i], text[j]) && Here(re, i + 1, text, j + 1)
  {
    if b :| j <= b <= |text| && (Ends(re, i) ==> b == |text|) && InLanguage(Items(re, i), text[j..b]) {
      FirstOne(re[i], Items(re, i + 1), text, j, b);
    }
    if j < |text| && Fits(re[i], text[j]) && Here(re, i + 1, text, j + 1) {
      var b :| j + 1 <= b <= |text| && (Ends(re, i + 1) ==> b == |text|) && InLanguage(Items(re, i + 1), text[j+1..b]);
      FirstOne(re[i], Items(re, i + 1), text, j, b);
    }
  }

  /** After some run of characters that fit c, the rest of the pattern occurs. */
  ghost predicate StarHere(c: char, re: string, i: nat, text: string, j: nat)
    requires i <= |re| && j <= |text|
  {
    exists m: nat :: j <= m <= |text| && Run(c, text, j, m) && Here(re, i, text, m)
  }

  lemma {:induction false} HereStar(re: string, i: nat, text: string, j: nat)
    requires i + 1 < |re| && re[i+1] == '*' && j <= |text|
    ensures Here(re, i, text, j) <==> StarHere(re[i], re, i + 2, text, j)
  {
    if b :| j <= b <= |text| && (Ends(re, i) ==> b == |text|) && InLanguage(Items(re, i), text[j..b]) {
      FirstStar(re[i], Items(re, i + 2), text, j, b);
      var m: nat :| j <= m <= b && Run(re[i], text, j, m) && InLanguage(Items(re, i + 2), text[m..b]);
      assert Here(re, i + 2, text, m);
    }
    if m: nat :| j <= m <= |text| && Run(re[i], text, j, m) && Here(re, i + 2, text, m) {
      var b :| m <= b <= |text| && (Ends(re, i + 2) ==> b == |text|) && InLanguage(Items(re, i + 2), text[m..b]);
      FirstStar(re[i], Items(re, i + 2), text, j, b);
    }
  }

  // ----- the matcher -----

  /** match: whether the pattern occurs in the text. */
  method Match(re: string, text: string) returns (r: bool)
    requires CString(re) && CString(text)
    ensures r <==> Occurs(Parse(re), text)
  {
    if Char(re, 0) == '^' {
      r := MatchHere(re, 1, text, 0);
      Anchored(re, text);
      return;
    }
    var t := 0;
    while true
      invariant t <= |text|
      invariant forall m: nat :: m < t ==> !Here(re, 0, text, m)
      decreases |text| - t
    {
      var h := MatchHere(re, 0, text, t);
      if h {
        Unanchored(re, text);
        return true;
      }
      if Char(text, t) == '\0' {
        Unanchored(re, text);
        return false;
      }
      t := t + 1;
    }
  }

  /** matchhere: search for the pattern from i on, at the beginning of the text from j on. */
  method MatchHere(re: string, i: nat, text: string, j: nat) returns (r: bool)
    requires CString(re) && CString(text) && i <= |re| && j <= |text|
    ensures r <==> Here(re, i, text, j)
    decreases |re| - i, 0
  {
    if Char(re, i) == '\0' {
      HereNil(re, i, text, j);
      return true;
    }
    if Char(re, i + 1) == '*' {
      HereStar(re, i, text, j);
      r := MatchStar(re[i], re, i + 2, text, j);
      return;
    }
    if Char(re, i) == '$' && Char(re, i + 1) == '\0' {
      HereEnd(re, i, text, j);
      return Char(text, j) == '\0';
    }
    HereOne(re, i, text, j);
    if Char(text, j) != '\0' && (re[i] == '.' || re[i] == text[j]) {
      r := MatchHere(re, i + 1, text, j + 1);
      return;
    }
    return false;
  }

  /** matchstar: search for c*, then the pattern from i on, at the beginning of the text from j on. */
  method MatchStar(c: char, re: string, i: nat, text: string, j: nat) returns (r: bool)
    requires CString(re) && CString(text) && i <= |re| && j <= |text|
    ensures r <==> StarHere(c, re, i, text, j)
    decreases |re| - i, 1
  {
    var t := j;
    while true
      invariant j <= t <= |text| && Run(c, text, j, t)
      invariant forall m: nat :: j <= m < t ==> !Here(re, i, text, m)
      decreases |text| - t
    {
      var h := MatchHere(re, i, text, t);
      if h {
        return true;
      }
      if Char(text, t) == '\0' {
        return false;
      }
      var x := text[t];
      t := t + 1;
      if !(x == c || c == '.') {
        assert !Fits(c, text[t-1]);
        return false;
      }
    }
  }

  lemma {:induction false} Anchored(re: string, text: string)
    requires Char(re, 0) == '^' && |re| > 0
    ensures Occurs(Parse(re), text) <==> Here(re, 1, text, 0)
  {}

  lemma {:induction false} Unanchored(re: string, text: string)
    requires Char(re, 0) != '^'
    ensures Occurs(Parse(re), text) <==> exists m: nat :: m <= |text| && Here(re, 0, text, m)
  {
    if m: nat :| m <= |text| && Here(re, 0, text, m) {
      var b :| m <= b <= |text| && (Ends(re, 0) ==> b == |text|) && InLanguage(Items(re, 0), text[m..b]);
    }
    if a, b :| 0 <= a <= b <= |text| && (Ends(re, 0) ==> b == |text|) && InLanguage(Items(re, 0), text[a..b]) {
      assert Here(re, 0, text, a);
    }
  }
}
