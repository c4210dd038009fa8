/** Optional values, as the source's `std::optional`. */
module Wrappers {
  datatype Option<+T> = None | Some(value: T)
}

/** Text scanning shared by the encoders and the decoders: trimming, searching and splitting. */
module Text {

  /** `std::isspace` in the C locale. */
  predicate IsSpace(c: char) {
    c == ' ' || '\t' <= c <= '\r'
  }

  predicate IsDigit(c: char) {
    '0' <= c <= '9'
  }

  /** `std::toupper` in the C locale. */
  function Upper(c: char): char {
    if 'a' <= c <= 'z' then (c as int - 32) as char else c
  }

  /** The position of the first `c` in `s`, or `|s|` (the source's `npos`) when there is none. */
  function IndexOf(s: string, c: char): (k: nat)
    ensures k <= |s|
  {
    if s == [] || s[0] == c then 0 else 1 + IndexOf(s[1..], c)
  }

  lemma {:induction false} IndexOfFinds(s: string, c: char)
    ensures forall i :: 0 <= i < IndexOf(s, c) ==> s[i] != c
    ensures IndexOf(s, c) < |s| ==> s[IndexOf(s, c)] == c
  {
    if s != [] && s[0] != c {
      IndexOfFinds(s[1..], c);
    }
  }

  lemma IndexOfIs(s: string, c: char, k: nat)
    requires k <= |s|
    requires forall i :: 0 <= i < k ==> s[i] != c
    requires k < |s| ==> s[k] == c
    ensures IndexOf(s, c) == k
  {
    IndexOfFinds(s, c);
    var found := IndexOf(s, c);
    assert !(found < k) && !(k < found);
  }

  function TrimLeft(s: string): string {
    if s != [] && IsSpace(s[0]) then TrimLeft(s[1..]) else s
  }

  function TrimRight(s: string): string {
    if s != [] && IsSpace(s[|s| - 1]) then TrimRight(s[..|s| - 1]) else s
  }

  function Trim(s: string): string {
    TrimRight(TrimLeft(s))
  }

  /** Neither end is white space; the empty text qualifies. */
  predicate Trimmed(s: string) {
    s != [] ==> !IsSpace(s[0]) && !IsSpace(s[|s| - 1])
  }

  lemma {:induction false} TrimLeftSplits(s: string)
    ensures var t := TrimLeft(s);
      && |t| <= |s| && t == s[|s| - |t|..]
      && (t != [] ==> !IsSpace(t[0]))
      && forall i :: 0 <= i < |s| - |t| ==> IsSpace(s[i])
  {
    if s != [] && IsSpace(s[0]) {
      TrimLeftSplits(s[1..]);
      assert forall i :: 1 <= i < |s| ==> s[i] == s[1..][i - 1];
    }
  }

  lemma {:induction false} TrimRightSplits(s: string)
    ensures var t := TrimRight(s);
      && |t| <= |s| && t == s[..|t|]
      && (t != [] ==> !IsSpace(t[|t| - 1]))
      && forall i :: |t| <= i < |s| ==> IsSpace(s[i])
  {
    if s != [] && IsSpace(s[|s| - 1]) {
      TrimRightSplits(s[..|s| - 1]);
    }
  }

  /** Trimming keeps a block of the text, with no white space at its ends and only white space around it. */
  lemma TrimSplits(s: string) returns (start: nat)
    ensures start + |Trim(s)| <= |s| && Trim(s) == s[start..start + |Trim(s)|]
    ensures Trimmed(Trim(s))
    ensures forall i :: 0 <= i < start || start + |Trim(s)| <= i < |s| ==> IsSpace(s[i])
  {
    TrimLeftSplits(s);
    TrimRightSplits(TrimLeft(s));
    start := |s| - |TrimLeft(s)|;
    assert forall i :: start <= i < |s| ==> s[i] == TrimLeft(s)[i - start];
  }

  lemma TrimFixes(s: string)
    requires Trimmed(s)
    ensures Trim(s) == s
  {
  }

  /** White space around a trimmed text is all that trimming removes. */
  lemma {:induction false} TrimPadded(left: string, s: string, right: string)
    requires Trimmed(s) && s != []
    requires forall i :: 0 <= i < |left| ==> IsSpace(left[i])
    requires forall i :: 0 <= i < |right| ==> IsSpace(right[i])
    ensures Trim(left + s + right) == s
  {
    if left != [] {
      assert (left + s + right)[1..] == left[1..] + s + right;
      TrimPadded(left[1..], s, right);
    } else if right != [] {
      var n := |right| - 1;
      assert (left + s + right)[..|s| + n] == left + s + right[..n];
      TrimPadded(left, s, right[..n]);
    } else {
      assert left + s + right == s;
    }
  }

  /** The source's `trim`: two loops narrowing a view. */
  method TrimView(text: string) returns (view: string)
    ensures view == Trim(text)
  {
    view := text;
    while view != [] && IsSpace(view[0])
      invariant TrimLeft(view) == TrimLeft(text)
    {
      view := view[1..];
    }
    assert view == TrimLeft(text);
    while view != [] && IsSpace(view[|view| - 1])
      invariant TrimRight(view) == Trim(text)
    {
      view := view[..|view| - 1];
    }
  }

  /** `text` cut at every `separator`; one piece more than there are separators. */
  function Split(text: string, separator: char): (pieces: seq<string>)
    ensures pieces != []
    ensures forall piece <- pieces :: separator !in piece
    decreases |text|
  {
    IndexOfFinds(text, separator);
    var k := IndexOf(text, separator);
    if k == |text| then [text] else [text[..k]] + Split(text[k + 1..], separator)
  }

  /** Every piece preceded by the separator. */
  function Joined(pieces: seq<string>, separator: char): string {
    if pieces == [] then [] else [separator] + pieces[0] + Joined(pieces[1..], separator)
  }

  /** The first piece, and the pieces after the first separator. */
  lemma {:induction false} SplitHead(text: string, separator: char)
    ensures var k := IndexOf(text, separator);
      Split(text, separator) == [text[..k]] + if k == |text| then [] else Split(text[k + 1..], separator)
  {
    hide IndexOf;
    assert text[..|text|] == text;
  }

  lemma SplitAt(head: string, rest: string, separator: char)
    requires forall i :: 0 <= i < |head| ==> head[i] != separator
    requires rest != [] ==> rest[0] == separator
    ensures Split(head + rest, separator) == if rest == [] then [head] else [head] + Split(rest[1..], separator)
  {
    var text := head + rest;
    IndexOfIs(text, separator, |head|);
    assert text[..|head|] == head;
    if rest == [] {
      assert text == head;
    } else {
      assert text[|head| + 1..] == rest[1..];
    }
  }

  lemma {:induction false} SplitJoined(pieces: seq<string>, separator: char)
    requires pieces != []
    requires forall piece <- pieces :: separator !in piece
    ensures Split(Joined(pieces, separator)[1..], separator) == pieces
  {
    var rest := Joined(pieces[1..], separator);
    assert Joined(pieces, separator)[1..] == pieces[0] + rest;
    assert separator !in pieces[0];
    SplitAt(pieces[0], rest, separator);
    if |pieces| > 1 {
      SplitJoined(pieces[1..], separator);
      assert pieces == [pieces[0]] + pieces[1..];
    }
  }

  lemma {:induction false} JoinedSplit(text: string, separator: char)
    ensures Joined(Split(text, separator), separator) == [separator] + text
    decreases |text|
  {
    IndexOfFinds(text, separator);
    var k := IndexOf(text, separator);
    if k == |text| {
      assert Joined([text], separator) == [separator] + text;
    } else {
      var rest := Split(text[k + 1..], separator);
      JoinedSplit(text[k + 1..], separator);
      calc {
        Joined([text[..k]] + rest, separator);
        [separator] + text[..k] + Joined(rest, separator);
        [separator] + text[..k] + ([separator] + text[k + 1..]);
        [separator] + text;
      }
    }
  }


  // The character classes, letter by letter

  const LOWER_CASE := "abcdefghijklmnopqrstuvwxyz"
  const UPPER_CASE := "ABCDEFGHIJKLMNOPQRSTUVWXYZ"

  /** Every letter has its capital. */
  lemma UpperOfLetter(i: nat)
    requires i < 26
    ensures Upper(LOWER_CASE[i]) == UPPER_CASE[i]
  {
  }

  lemma LetterIsListed(c: char)
    requires 'a' <= c <= 'z'
    ensures c in LOWER_CASE
  {
    assert LOWER_CASE[c as int - 97] == c;
  }

  /** Nothing but the letters changes. */
  lemma UpperOfOthers(c: char)
    requires c !in LOWER_CASE
    ensures Upper(c) == c
  {
    if 'a' <= c <= 'z' {
      LetterIsListed(c);
    }
  }

  lemma SpaceMeans(c: char)
    ensures IsSpace(c) <==> c in {' ', '\t', '\n', '\U{b}', '\U{c}', '\r'}
  {
  }
}
