/** The regular expression matcher of user/grep.c, against a declarative reading of
    patterns. Strings are without their terminating NUL. */
module Grep {

  /** What a pattern is made of; End is a final '$'. */
  datatype Item = One(c: char) | Star(c: char) | End

  function Items(re: string): (r: seq<Item>)
    ensures forall k :: 0 <= k < |r| - 1 ==> r[k] != End
  {
    if re == "" then []
    else if |re| >= 2 && re[1] == '*' then [Star(re[0])] + Items(re[2..])
    else if re == "$" then [End]
    else [One(re[0])] + Items(re[1..])
  }

  predicate Is(c: char, x: char) {
    c == '.' || x == c
  }

  /** A piece of text that an item can stand for. */
  ghost predicate Fits(x: Item, piece: string) {
    match x
    case One(c) => |piece| == 1 && Is(c, piece[0])
    case Star(c) => forall k :: 0 <= k < |piece| ==> Is(c, piece[k])
    case End => piece == ""
  }

  function Join(pieces: seq<string>): string {
    if pieces == [] then "" else pieces[0] + Join(pieces[1..])
  }

  ghost predicate Anchored(items: seq<Item>) {
    items != [] && items[|items| - 1] == End
  }

  /** The text starts with pieces that fit the items one by one, and a final '$'
      leaves nothing over. */
  ghost predicate Cut(items: seq<Item>, pieces: seq<string>, text: string) {
    && |pieces| == |items| && (forall k :: 0 <= k < |items| ==> Fits(items[k], pieces[k]))
    && Join(pieces) <= text && (Anchored(items) ==> Join(pieces) == text)
  }

  ghost predicate Reads(items: seq<Item>, text: string) {
    exists pieces :: Cut(items, pieces, text)
  }

  // ----- how the first item is read -----

  lemma CutFirst(x: Item, rest: seq<Item>, pieces: seq<string>, text: string)
    requires Cut([x] + rest, pieces, text) && (rest == [] ==> x != End)
    ensures |pieces[0]| <= |text| && pieces[0] == text[..|pieces[0]|] && Fits(x, pieces[0])
    ensures Cut(rest, pieces[1..], text[|pieces[0]|..])
  {
    var items, n := [x] + rest, |pieces[0]|;
    assert items[0] == x;
    assert Join(pieces) == pieces[0] + Join(pieces[1..]);
    forall k | 0 <= k < |rest|
      ensures Fits(rest[k], pieces[1..][k])
    {
      assert items[k + 1] == rest[k] && pieces[k + 1] == pieces[1..][k];
    }
    assert rest != [] ==> items[|items| - 1] == rest[|rest| - 1];
  }

  lemma CutCons(x: Item, rest: seq<Item>, n: nat, pieces: seq<string>, text: string)
    requires n <= |text| && Fits(x, text[..n]) && Cut(rest, pieces, text[n..]) && (rest == [] ==> x != End)
    ensures Cut([x] + rest, [text[..n]] + pieces, text)
  {
    var items, all := [x] + rest, [text[..n]] + pieces;
    assert all[1..] == pieces && Join(all) == text[..n] + Join(pieces);
    assert text == text[..n] + text[n..];
    forall k | 0 <= k < |items|
      ensures Fits(items[k], all[k])
    {
      if k > 0 { assert items[k] == rest[k - 1] && all[k] == pieces[k - 1]; }
    }
    assert rest != [] ==> items[|items| - 1] == rest[|rest| - 1];
  }

  lemma ReadsNone(text: string)
    ensures Reads([], text)
  {
    assert Cut([], [], text);
  }

  lemma ReadsEnd(text: string)
    ensures Reads([End], text) <==> text == ""
  {
    if Reads([End], text) {
      var pieces :| Cut([End], pieces, text);
      assert [End][0] == End && Join(pieces) == pieces[0] + Join(pieces[1..]);
    }
    if text == "" {
      assert Join([""]) == "" + Join([""][1..]);
      assert Cut([End], [""], text);
    }
  }

  lemma ReadsOne(c: char, rest: seq<Item>, text: string)
    ensures Reads([One(c)] + rest, text) <==> text != "" && Is(c, text[0]) && Reads(rest, text[1..])
  {
    if Reads([One(c)] + rest, text) {
      var pieces :| Cut([One(c)] + rest, pieces, text);
      CutFirst(One(c), rest, pieces, text);
    }
    if text != "" && Is(c, text[0]) && Reads(rest, text[1..]) {
      var pieces :| Cut(rest, pieces, text[1..]);
      CutCons(One(c), rest, 1, pieces, text);
    }
  }

  /** The first n characters of the text can stand for c*. */
  ghost predicate Runs(c: char, text: string, n: nat) {
    n <= |text| && forall k :: 0 <= k < n ==> Is(c, text[k])
  }

  lemma ReadsStar(c: char, rest: seq<Item>, text: string)
    ensures Reads([Star(c)] + rest, text) <==> exists n: nat :: Runs(c, text, n) && Reads(rest, text[n..])
  {
    if Reads([Star(c)] + rest, text) {
      var pieces :| Cut([Star(c)] + rest, pieces, text);
      CutFirst(Star(c), rest, pieces, text);
      assert Runs(c, text, |pieces[0]|);
    }
    if n: nat :| Runs(c, text, n) && Reads(rest, text[n..]) {
      var pieces :| Cut(rest, pieces, text[n..]);
      CutCons(Star(c), rest, n, pieces, text);
    }
  }

  // ----- the matcher -----

  /** matchhere: re matches at the beginning of text. */
  method MatchHere(re: string, text: string) returns (r: bool)
    ensures r <==> Reads(Items(re), text)
    decreases |re|, 1
  {
    if re == "" {
      ReadsNone(text);
      return true;
    }
    if |re| >= 2 && re[1] == '*' {
      r := MatchStar(re[0], re[2..], text);
      return;
    }
    if re == "$" {
      ReadsEnd(text);
      return text == "";
    }
    ReadsOne(re[0], Items(re[1..]), text);
    if text != "" && (re[0] == '.' || re[0] == text[0]) {
      r := MatchHere(re[1..], text[1..]);
      return;
    }
    return false;
  }

  /** matchstar: c*re matches at the beginning of text. */
  method MatchStar(c: char, re: string, text: string) returns (r: bool)
    ensures r <==> Reads([Star(c)] + Items(re), text)
    decreases |re|, 2
  {
    ReadsStar(c, Items(re), text);
    var n := 0;
    while true
      invariant Runs(c, text, n) && forall k: nat :: k < n ==> !Reads(Items(re), text[k..])
      decreases |text| - n
    {
      r := MatchHere(re, text[n..]);
      if r || n == |text| || !(text[n] == c || c == '.') {
        break;
      }
      n := n + 1;
    }
  }

  /** match: re matches somewhere in text, or at its beginning after a leading '^'. */
  method Match(re: string, text: string) returns (r: bool)
    ensures r <==> if re != "" && re[0] == '^' then Reads(Items(re[1..]), text)
                   else exists k :: 0 <= k <= |text| && Reads(Items(re), text[k..])
  {
    if re != "" && re[0] == '^' {
      r := MatchHere(re[1..], text);
      return;
    }
    var n := 0;
    while true
      invariant 0 <= n <= |text| && forall k :: 0 <= k < n ==> !Reads(Items(re), text[k..])
      decreases |text| - n
    {
      r := MatchHere(re, text[n..]);
      if r || n == |text| {
        break;
      }
      n := n + 1;
    }
  }

  // ----- what patterns mean -----

  /** A pattern without special characters stands for itself. */
  lemma {:induction false} PlainPattern(re: string, text: string)
    requires forall k :: 0 <= k < |re| ==> re[k] !in {'.', '*', '$'}
    ensures Reads(Items(re), text) <==> re <= text
  {
    if re == "" {
      ReadsNone(text);
    } else {
      assert |re| >= 2 ==> re[1] != '*';
      PlainPattern(re[1..], if text == "" then "" else text[1..]);
      ReadsOne(re[0], Items(re[1..]), text);
      if re <= text { assert re[1..] <= text[1..]; }
      if text != "" && re[0] == text[0] && re[1..] <= text[1..] { assert re == [re[0]] + re[1..]; }
    }
  }

  /** A dot stands for any character, and any other one for itself. */
  lemma SinglePattern(c: char, re: string, text: string)
    requires (re != "" ==> re[0] != '*') && (c == '$' ==> re != "")
    ensures Reads(Items([c] + re), text) <==>
              text != "" && (c == '.' || c == text[0]) && Reads(Items(re), text[1..])
  {
    assert ([c] + re)[1..] == re;
    assert |[c] + re| >= 2 ==> ([c] + re)[1] == re[0];
    ReadsOne(c, Items(re), text);
  }

  /** A starred character stands for any number of them, none included. */
  lemma StarPattern(c: char, re: string, text: string)
    ensures Reads(Items([c, '*'] + re), text) <==>
              exists n: nat :: n <= |text| && (forall k :: 0 <= k < n ==> c == '.' || c == text[k])
                               && Reads(Items(re), text[n..])
  {
    assert ([c, '*'] + re)[2..] == re;
    ReadsStar(c, Items(re), text);
    if n: nat :| Runs(c, text, n) && Reads(Items(re), text[n..]) {
      assert forall k :: 0 <= k < n ==> c == '.' || c == text[k];
    }
    if n: nat :| n <= |text| && (forall k :: 0 <= k < n ==> c == '.' || c == text[k]) && Reads(Items(re), text[n..]) {
      assert Runs(c, text, n);
    }
  }

  /** A final dollar stands for the end of the text. */
  lemma EndPattern(text: string)
    ensures Reads(Items("$"), text) <==> text == ""
  {
    ReadsEnd(text);
  }
}
