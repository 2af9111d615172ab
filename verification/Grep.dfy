/**
 The regular expression matcher of platform/visionfive2/user/grep.c. A C string is the sequence of its characters before
 the terminating NUL.
 */
module Grep {

  // ---- What a pattern means ----

  datatype Item = One(c: char) | Star(c: char) | End

  predicate Accepts(c: char, x: char) {
    c == '.' || c == x
  }

  /** The items of a pattern; '$' is special only at the end, and a star only after another character. */
  function Items(re: string): seq<Item> {
    if re == [] then []
    else if |re| > 1 && re[1] == '*' then [Star(re[0])] + Items(re[2..])
    else if re == "$" then [End]
    else [One(re[0])] + Items(re[1..])
  }

  ghost predicate PieceOk(item: Item, piece: string) {
    match item
    case One(c) => |piece| == 1 && Accepts(c, piece[0])
    case Star(c) => forall i :: 0 <= i < |piece| ==> Accepts(c, piece[i])
    case End => piece == []
  }

  function Flatten(pieces: seq<string>): string {
    if pieces == [] then [] else pieces[0] + Flatten(pieces[1..])
  }

  // The pieces match the items one by one, and together they are the text.
  ghost predicate Splits(items: seq<Item>, pieces: seq<string>, text: string) {
    && |pieces| == |items| && Flatten(pieces) == text
    && forall i :: 0 <= i < |items| ==> PieceOk(items[i], pieces[i])
  }

  predicate Anchored(items: seq<Item>) {
    |items| > 0 && items[|items| - 1].End?
  }

  // The first n characters of text split into pieces.
  ghost predicate SplitsTo(items: seq<Item>, pieces: seq<string>, text: string, n: nat) {
    n <= |text| && Splits(items, pieces, text[..n]) && (Anchored(items) ==> n == |text|)
  }

  /** Some prefix of the text, all of it if the pattern ends in '$', splits into pieces that match the items. */
  ghost predicate MatchesHere(items: seq<Item>, text: string) {
    exists pieces, n: nat :: SplitsTo(items, pieces, text, n)
  }

  /** Some substring does; a prefix if the pattern starts with '^'. */
  ghost predicate Matches(re: string, text: string) {
    if re != [] && re[0] == '^' then MatchesHere(Items(re[1..]), text)
    else exists k :: 0 <= k <= |text| && MatchesHere(Items(re), text[k..])
  }

  // ---- The meaning, item by item ----

  // The first item matches the first k characters, and the other items match from there.
  ghost predicate FirstTakes(items: seq<Item>, text: string, k: nat)
    requires items != []
  {
    && k <= |text| && PieceOk(items[0], text[..k]) && MatchesHere(items[1..], text[k..])
    && (Anchored(items) && |items| == 1 ==> k == |text|)
  }

  lemma Join(items: seq<Item>, text: string, k: nat)
    requires items != [] && FirstTakes(items, text, k)
    ensures MatchesHere(items, text)
  {
    var pieces, n: nat :| SplitsTo(items[1..], pieces, text[k..], n);
    var all := [text[..k]] + pieces;
    assert text[..k] + text[k..][..n] == text[..k + n];
    assert all[1..] == pieces;
    assert SplitsTo(items, all, text, k + n) by {
      assert forall i :: 1 <= i < |items| ==> items[i] == items[1..][i - 1] && all[i] == pieces[i - 1];
    }
  }

  lemma Separate(items: seq<Item>, text: string) returns (k: nat)
    requires items != [] && MatchesHere(items, text)
    ensures FirstTakes(items, text, k)
  {
    var pieces, n: nat :| SplitsTo(items, pieces, text, n);
    k := |pieces[0]|;
    var rest := Flatten(pieces[1..]);
    assert text[..n] == pieces[0] + rest;
    assert text[..n][..k] == text[..k] == pieces[0];
    assert text[..n][k..] == text[k..][..n - k] == rest;
    assert SplitsTo(items[1..], pieces[1..], text[k..], n - k);
  }

  lemma NoItems(text: string)
    ensures MatchesHere([], text)
  {
    assert SplitsTo([], [], text, 0);
  }

  lemma EndHere(text: string)
    ensures MatchesHere([End], text) <==> text == []
  {
    if MatchesHere([End], text) {
      var k := Separate([End], text);
    }
    if text == [] {
      NoItems(text);
      assert [End][1..] == [] && text[0..] == text;
      Join([End], text, 0);
    }
  }

  lemma OneHere(c: char, items: seq<Item>, text: string)
    ensures MatchesHere([One(c)] + items, text) <==> text != [] && Accepts(c, text[0]) && MatchesHere(items, text[1..])
  {
    var all := [One(c)] + items;
    assert all[1..] == items;
    if MatchesHere(all, text) {
      var k := Separate(all, text);
    }
    if text != [] && Accepts(c, text[0]) && MatchesHere(items, text[1..]) {
      Join(all, text, 1);
    }
  }

  ghost predicate StarTakes(c: char, items: seq<Item>, text: string, k: nat) {
    k <= |text| && (forall i :: 0 <= i < k ==> Accepts(c, text[i])) && MatchesHere(items, text[k..])
  }

  lemma StarHere(c: char, items: seq<Item>, text: string)
    ensures MatchesHere([Star(c)] + items, text) <==> exists k :: StarTakes(c, items, text, k)
  {
    var all := [Star(c)] + items;
    assert all[1..] == items;
    if MatchesHere(all, text) {
      var k := Separate(all, text);
      assert StarTakes(c, items, text, k);
    }
    if exists k :: StarTakes(c, items, text, k) {
      var k :| StarTakes(c, items, text, k);
      Join(all, text, k);
    }
  }

  // ---- The matcher ----

  method Match(re: string, text: string) returns (found: bool)
    ensures found <==> Matches(re, text)
  {
    if re != [] && re[0] == '^' {
      found := MatchHere(re[1..], text);
      return;
    }
    var i := 0;
    while true
      invariant 0 <= i <= |text| && forall k :: 0 <= k < i ==> !MatchesHere(Items(re), text[k..])
      decreases |text| - i
    {
      found := MatchHere(re, text[i..]);
      if found || i == |text| {
        return;
      }
      i := i + 1;
    }
  }

  method MatchHere(re: string, text: string) returns (found: bool)
    ensures found <==> MatchesHere(Items(re), text)
    decreases |re|, 0
  {
    if re == [] {
      NoItems(text);
      return true;
    }
    if |re| > 1 && re[1] == '*' {
      found := MatchStar(re[0], re[2..], text);
      return;
    }
    if re == "$" {
      EndHere(text);
      return text == [];
    }
    OneHere(re[0], Items(re[1..]), text);
    if text != [] && (re[0] == '.' || re[0] == text[0]) {
      found := MatchHere(re[1..], text[1..]);
      return;
    }
    return false;
  }

  method MatchStar(c: char, re: string, text: string) returns (found: bool)
    ensures found <==> MatchesHere([Star(c)] + Items(re), text)
    decreases |re|, 1
  {
    StarHere(c, Items(re), text);
    var i := 0;
    while true
      invariant 0 <= i <= |text| && (forall k :: 0 <= k < i ==> Accepts(c, text[k]))
      invariant forall k :: 0 <= k < i ==> !MatchesHere(Items(re), text[k..])
      decreases |text| - i
    {
      found := MatchHere(re, text[i..]);
      if found {
        assert StarTakes(c, Items(re), text, i);
        return;
      }
      if i == |text| || !(text[i] == c || c == '.') {
        return;
      }
      i := i + 1;
    }
  }
}
