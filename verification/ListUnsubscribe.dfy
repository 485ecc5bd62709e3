/** Reading the List-Unsubscribe header of a delivered message (RFC 2369, section 2). */
module ListUnsubscribe {

  // ----- the matcher -----

  /** The position of the first c at or after `from`, or |s|. */
  function IndexOf(s: string, c: char, from: nat): (k: nat)
    requires from <= |s|
    ensures from <= k <= |s| && (k < |s| ==> s[k] == c) && forall j :: from <= j < k ==> s[j] != c
    decreases |s| - from
  {
    if from == |s| || s[from] == c then from else IndexOf(s, c, from + 1)
  }

  /**
   All matches of `<([^>]*)>`, leftmost first and without overlap: a match starts at the next
   '<' and runs to the '>' after it; without one there is no further match.
   */
  function Entries(s: string): (r: seq<string>)
    decreases |s|
  {
    var open := IndexOf(s, '<', 0);
    if open == |s| then []
    else
      var close := IndexOf(s, '>', open);
      if close == |s| then [] else [s[open + 1..close]] + Entries(s[close + 1..])
  }

  // ----- the same by splitting -----

  /** The pieces of s that end with a '>', without it. */
  function Pieces(s: string): (r: seq<string>)
    decreases |s|
  {
    var close := IndexOf(s, '>', 0);
    if close == |s| then [] else [s[..close]] + Pieces(s[close + 1..])
  }

  /** The part of each piece after its first '<', for the pieces that have one. */
  function AfterOpen(pieces: seq<string>): seq<string> {
    if pieces == [] then []
    else
      var open := IndexOf(pieces[0], '<', 0);
      (if open == |pieces[0]| then [] else [pieces[0][open + 1..]]) + AfterOpen(pieces[1..])
  }

  lemma {:induction false} IndexIs(s: string, c: char, from: nat, k: nat)
    requires from <= k <= |s| && (k < |s| ==> s[k] == c) && forall j :: from <= j < k ==> s[j] != c
    ensures IndexOf(s, c, from) == k
  {}

  predicate Without(s: string, c: char) {
    forall k :: 0 <= k < |s| ==> s[k] != c
  }

  /** No '<' is followed by a '>'. */
  predicate Ended(s: string) {
    forall i, j :: 0 <= i < j < |s| ==> !(s[i] == '<' && s[j] == '>')
  }

  lemma {:induction false} NoMatchMeansEnded(s: string)
    ensures Entries(s) == [] <==> Ended(s)
  {}

  lemma {:induction false} ReadOne(gap: string, e: string, rest: string)
    requires Without(gap, '<') && Without(e, '>')
    ensures Entries(gap + "<" + e + ">" + rest) == [e] + Entries(rest)
  {
    var s := gap + "<" + e + ">" + rest;
    var open, close := |gap|, |gap| + 1 + |e|;
    assert s[open] == '<' && s[close] == '>';
    forall j | 0 <= j < open ensures s[j] != '<' {
      assert s[j] == gap[j];
    }
    forall j | open < j < close ensures s[j] != '>' {
      assert s[j] == e[j - open - 1];
    }
    IndexIs(s, '<', 0, open);
    IndexIs(s, '>', open, close);
    assert s[open + 1..close] == e && s[close + 1..] == rest;
  }

  /** The text before the first match, the match, and the rest. */
  lemma {:induction false} FirstMatch(s: string) returns (gap: string, e: string, rest: string)
    requires !Ended(s)
    ensures s == gap + "<" + e + ">" + rest && Without(gap, '<') && Without(e, '>')
    ensures Entries(s) == [e] + Entries(rest) && |rest| < |s|
  {
    NoMatchMeansEnded(s);
    var open := IndexOf(s, '<', 0);
    var close := IndexOf(s, '>', open);
    gap, e, rest := s[..open], s[open + 1..close], s[close + 1..];
    assert s == gap + "<" + e + ">" + rest;
  }

  lemma {:induction false} EndedAfter(a: string, rest: string)
    requires Without(a, '<')
    ensures Ended(a + ">" + rest) <==> Ended(rest)
  {
    var s, n := a + ">" + rest, |a| + 1;
    assert forall j :: 0 <= j < |rest| ==> s[j + n] == rest[j];
    assert forall i :: 0 <= i < n ==> s[i] != '<';
    if !Ended(rest) {
      var i, j :| 0 <= i < j < |rest| && rest[i] == '<' && rest[j] == '>';
      assert s[i + n] == '<' && s[j + n] == '>';
    }
    if !Ended(s) {
      var i, j :| 0 <= i < j < |s| && s[i] == '<' && s[j] == '>';
      assert rest[i - n] == '<' && rest[j - n] == '>';
    }
  }

  lemma {:induction false} Regroup(a: string, gap: string, e: string, rest: string)
    ensures (a + ">" + gap) + "<" + e + ">" + rest == a + ">" + (gap + "<" + e + ">" + rest)
  {}

  /** Text up to a '>' that has no '<' contributes nothing. */
  lemma {:induction false} SkippingClosed(a: string, rest: string)
    requires Without(a, '<')
    ensures Entries(a + ">" + rest) == Entries(rest)
  {
    EndedAfter(a, rest);
    if Ended(rest) {
      NoMatchMeansEnded(rest);
      NoMatchMeansEnded(a + ">" + rest);
    } else {
      var gap, e, more := FirstMatch(rest);
      Regroup(a, gap, e, more);
      ReadOne(a + ">" + gap, e, more);
    }
  }

  /** Matching and splitting agree on every string. */
  lemma {:induction false} MatchingIsSplitting(s: string)
    ensures Entries(s) == AfterOpen(Pieces(s))
    decreases |s|
  {
    var close := IndexOf(s, '>', 0);
    if close == |s| {
      NoMatchMeansEnded(s);
    } else {
      var piece, rest := s[..close], s[close + 1..];
      assert s == piece + ">" + rest;
      MatchingIsSplitting(rest);
      SplitOne(piece, rest);
      AfterOpenHead(piece, Pieces(rest));
    }
  }

  lemma {:induction false} AfterOpenHead(piece: string, more: seq<string>)
    ensures AfterOpen([piece] + more) == AfterOpen([piece]) + AfterOpen(more)
  {}

  lemma {:induction false} AfterOpenOne(piece: string)
    ensures AfterOpen([piece]) ==
            var open := IndexOf(piece, '<', 0); if open == |piece| then [] else [piece[open + 1..]]
  {}

  lemma {:induction false} SplitOne(piece: string, rest: string)
    requires Without(piece, '>')
    ensures Entries(piece + ">" + rest) == AfterOpen([piece]) + Entries(rest)
  {
    AfterOpenOne(piece);
    var open := IndexOf(piece, '<', 0);
    if open == |piece| {
      SkippingClosed(piece, rest);
      assert [] + Entries(rest) == Entries(rest);
    } else {
      OpenedPiece(piece, open, rest);
    }
  }

  /** A piece with a '<' gives the match that starts there. */
  lemma {:induction false} OpenedPiece(piece: string, open: nat, rest: string)
    requires open < |piece| && piece[open] == '<' && Without(piece, '>') && forall j :: 0 <= j < open ==> piece[j] != '<'
    ensures Entries(piece + ">" + rest) == [piece[open + 1..]] + Entries(rest)
  {
    ReadOne(piece[..open], piece[open + 1..], rest);
    Reopen(piece, open, rest);
  }

  lemma {:induction false} Reopen(piece: string, open: nat, rest: string)
    requires open < |piece| && piece[open] == '<'
    ensures piece[..open] + "<" + piece[open + 1..] + ">" + rest == piece + ">" + rest
  {}

  // ----- printing and reading -----

  /** Bracketed entries, each after some other text, and a tail. */
  function Written(gaps: seq<string>, es: seq<string>, tail: string): string
    requires |gaps| == |es|
  {
    if es == [] then tail else gaps[0] + "<" + es[0] + ">" + Written(gaps[1..], es[1..], tail)
  }

  /** Whatever stands between the entries, reading gives back what was written. */
  lemma {:induction false} ReadingUndoesWriting(gaps: seq<string>, es: seq<string>, tail: string)
    requires |gaps| == |es| && Ended(tail)
    requires forall k :: 0 <= k < |es| ==> Without(gaps[k], '<') && Without(es[k], '>')
    ensures Entries(Written(gaps, es, tail)) == es
    decreases |es|
  {
    if es == [] {
      NoMatchMeansEnded(tail);
    } else {
      ReadingUndoesWriting(gaps[1..], es[1..], tail);
      ReadOne(gaps[0], es[0], Written(gaps[1..], es[1..], tail));
    }
  }

  /** Every header value is such a writing of the entries read from it: nothing is invented or lost. */
  lemma {:induction false} EveryValueIsWritten(s: string) returns (gaps: seq<string>, tail: string)
    ensures |gaps| == |Entries(s)| && Ended(tail) && s == Written(gaps, Entries(s), tail)
    ensures forall k :: 0 <= k < |gaps| ==> Without(gaps[k], '<') && Without(Entries(s)[k], '>')
    decreases |s|
  {
    NoMatchMeansEnded(s);
    if Ended(s) {
      gaps, tail := [], s;
    } else {
      var gap, e, rest := FirstMatch(s);
      var more;
      more, tail := EveryValueIsWritten(rest);
      gaps := [gap] + more;
      assert Entries(s)[1..] == Entries(rest) && gaps[1..] == more;
    }
  }

  /** The usual form: `<e1>, <e2>, ...`. */
  function Print(es: seq<string>): string {
    PrintAfter("", es)
  }

  function PrintAfter(separator: string, es: seq<string>): string
    decreases |es|
  {
    if es == [] then "" else separator + "<" + es[0] + ">" + PrintAfter(", ", es[1..])
  }

  lemma {:induction false} PrintIsWritten(separator: string, es: seq<string>) returns (gaps: seq<string>)
    requires Without(separator, '<')
    ensures |gaps| == |es| && forall k :: 0 <= k < |gaps| ==> Without(gaps[k], '<')
    ensures PrintAfter(separator, es) == Written(gaps, es, "")
    decreases |es|
  {
    gaps := [];
    if es != [] {
      var more := PrintIsWritten(", ", es[1..]);
      gaps := [separator] + more;
      assert gaps[1..] == more;
    }
  }

  /** Reading undoes printing exactly for entries without a closing bracket. */
  lemma {:induction false} ReadingUndoesPrinting(es: seq<string>)
    ensures Entries(Print(es)) == es <==> forall k :: 0 <= k < |es| ==> Without(es[k], '>')
  {
    var written := PrintIsWritten("", es);
    if forall k :: 0 <= k < |es| ==> Without(es[k], '>') {
      ReadingUndoesWriting(written, es, "");
    }
    var gaps, tail := EveryValueIsWritten(Print(es));
  }

  // ----- the accessors -----

  type Headers = map<string, seq<string>>

  function First(v: seq<string>): string {
    if |v| == 0 then "" else v[0]
  }

  /** `Header`; `canonical` is the header-name normalisation of net/http. */
  function Header(canonical: string -> string, headers: Headers, name: string): string {
    var key := canonical(name);
    First(if key in headers then headers[key] else [])
  }

  predicate IsWeb(e: string) {
    "https://" <= e || "http://" <= e
  }

  /** The first value stored under the canonical form of the name, or the empty string. */
  ghost predicate FirstValue(canonical: string -> string, headers: Headers, name: string, value: string) {
    if canonical(name) in headers && headers[canonical(name)] != [] then value == headers[canonical(name)][0]
    else value == ""
  }

  /** The first of the entries that starts with http:// or https://, or the empty string. */
  ghost predicate FirstWeb(es: seq<string>, url: string) {
    if exists k :: WebAt(es, k) then exists k :: WebAt(es, k) && url == es[k] && forall j :: 0 <= j < k ==> !WebAt(es, j)
    else url == ""
  }

  ghost predicate WebAt(es: seq<string>, k: int) {
    0 <= k < |es| && ("http://" <= es[k] || "https://" <= es[k])
  }

  /** `UnsubscribeURL`. */
  method UnsubscribeURL(canonical: string -> string, headers: Headers) returns (url: string)
    ensures exists value :: FirstValue(canonical, headers, "List-Unsubscribe", value) && FirstWeb(Entries(value), url)
  {
    var value := Header(canonical, headers, "List-Unsubscribe");
    var es := Entries(value);
    assert FirstValue(canonical, headers, "List-Unsubscribe", value);
    for i := 0 to |es|
      invariant forall j :: 0 <= j < i ==> !WebAt(es, j)
    {
      if IsWeb(es[i]) {
        assert WebAt(es, i);
        return es[i];
      }
    }
    url := "";
  }
}
