/** Reading the next page's URL from a Link header (RFC 8288) by splitting at commas and semicolons, and
  * exactly when that finds it. */
module LinkHeader {
  import opened Text
  import opened Wrappers

  // ----- The reader

  function Split(s: string, c: char): (parts: seq<string>)
    ensures parts != []
  {
    if s == "" then [""]
    else
      var rest := Split(s[1..], c);
      if s[0] == c then [""] + rest else [[s[0]] + rest[0]] + rest[1..]
  }

  function Bracketed(s: string): Option<string> {
    if |s| >= 2 && s[0] == '<' && s[|s| - 1] == '>' then Some(s[1..|s| - 1]) else None
  }

  predicate IsNext(attr: string) {
    attr == "rel=\"next\"" || attr == "rel=next"
  }

  predicate AnyNext(attrs: seq<string>) {
    exists k :: 0 <= k < |attrs| && IsNext(Trim(attrs[k]))
  }

  /** The first part with a next relation, unless a part before it has no URL in brackets. */
  function FirstNext(parts: seq<string>): Option<string> {
    if parts == [] then None
    else
      var pieces := Split(Trim(parts[0]), ';');
      var url := Bracketed(Trim(pieces[0]));
      if url.None? || AnyNext(pieces[1..]) then url else FirstNext(parts[1..])
  }

  /** `next_link`. */
  method NextLink(header: string) returns (r: Option<string>)
    ensures r == FirstNext(Split(header, ','))
  {
    hide AnyNext, Bracketed, IsNext, Trim;
    var parts := Split(header, ',');
    for i := 0 to |parts|
      invariant FirstNext(parts[i..]) == FirstNext(parts)
    {
      assert parts[i..][1..] == parts[i + 1..];
      var pieces := Split(Trim(parts[i]), ';');
      var url := Bracketed(Trim(pieces[0]));
      if url.None? {
        return None;
      }
      var isNext := HasNext(pieces[1..]);
      if isNext {
        return url;
      }
    }
    return None;
  }

  method HasNext(attrs: seq<string>) returns (found: bool)
    ensures found == AnyNext(attrs)
  {
    hide IsNext, Trim;
    for i := 0 to |attrs|
      invariant forall k :: 0 <= k < i ==> !IsNext(Trim(attrs[k]))
    {
      if IsNext(Trim(attrs[i])) {
        return true;
      }
    }
    return false;
  }

  // ----- Headers

  datatype Link = Link(url: string, attrs: seq<string>)

  function AttrText(attrs: seq<string>): string {
    if attrs == [] then "" else "; " + attrs[0] + AttrText(attrs[1..])
  }

  function Entry(l: Link): string {
    "<" + l.url + ">" + AttrText(l.attrs)
  }

  function Header(links: seq<Link>): string {
    if links == [] then ""
    else if |links| == 1 then Entry(links[0])
    else Entry(links[0]) + ", " + Header(links[1..])
  }

  predicate Without(s: string, c: char) {
    forall k :: 0 <= k < |s| ==> s[k] != c
  }

  /** An attribute without commas, semicolons and outer white space. */
  predicate PlainAttr(a: string) {
    a != "" && Without(a, ',') && Without(a, ';') && !IsWs(a[0]) && !IsWs(a[|a| - 1])
  }

  predicate Renderable(links: seq<Link>) {
    forall k :: 0 <= k < |links| ==>
      Without(links[k].url, '>') && forall j :: 0 <= j < |links[k].attrs| ==> PlainAttr(links[k].attrs[j])
  }

  /** RFC 8288's answer, except that a URL with a comma or a semicolon in it ends the search. */
  function Found(links: seq<Link>): Option<string> {
    if links == [] then None
    else if !Without(links[0].url, ',') || !Without(links[0].url, ';') then None
    else if "rel=\"next\"" in links[0].attrs || "rel=next" in links[0].attrs then Some(links[0].url)
    else Found(links[1..])
  }

  // ----- Splitting

  lemma {:induction false} SplitWhole(t: string, c: char)
    requires Without(t, c)
    ensures Split(t, c) == [t]
  {
    if t != "" {
      SplitWhole(t[1..], c);
      assert [t[0]] + t[1..] == t;
    }
  }

  lemma {:induction false} SplitAt(t: string, c: char, rest: string)
    requires Without(t, c)
    ensures Split(t + [c] + rest, c) == [t] + Split(rest, c)
  {
    var all := t + [c] + rest;
    if t == "" {
      assert all[1..] == rest;
    } else {
      SplitAt(t[1..], c, rest);
      assert all[1..] == t[1..] + [c] + rest;
      assert [t[0]] + t[1..] == t;
    }
  }

  /** Up to the first separator. */
  lemma {:induction false} FirstPiece(s: string, c: char) returns (k: nat)
    ensures k <= |s| && Without(s[..k], c) && Split(s, c)[0] == s[..k]
    ensures (forall i :: 0 <= i < k ==> s[i] != c) && (k < |s| ==> s[k] == c)
  {
    if s == "" || s[0] == c {
      k := 0;
    } else {
      var j := FirstPiece(s[1..], c);
      k := j + 1;
      assert s[..k] == [s[0]] + s[1..][..j];
    }
  }

  function Padded(attrs: seq<string>): seq<string> {
    if attrs == [] then [] else [" " + attrs[0]] + Padded(attrs[1..])
  }

  lemma {:induction false} SplitEntry(head: string, attrs: seq<string>)
    requires Without(head, ';')
    requires forall j :: 0 <= j < |attrs| ==> PlainAttr(attrs[j])
    ensures Split(head + AttrText(attrs), ';') == [head] + Padded(attrs)
    decreases |attrs|
  {
    hide Split;
    if attrs == [] {
      assert head + AttrText(attrs) == head;
      SplitWhole(head, ';');
    } else {
      var more := " " + attrs[0];
      assert PlainAttr(attrs[0]);
      SplitEntry(more, attrs[1..]);
      assert head + AttrText(attrs) == head + [';'] + (more + AttrText(attrs[1..]));
      SplitAt(head, ';', more + AttrText(attrs[1..]));
    }
  }

  lemma {:induction false} PaddedAt(attrs: seq<string>)
    ensures |Padded(attrs)| == |attrs|
    ensures forall k :: 0 <= k < |attrs| ==> Padded(attrs)[k] == " " + attrs[k]
  {
    if attrs != [] {
      PaddedAt(attrs[1..]);
    }
  }

  lemma TrimmedAttr(a: string)
    requires PlainAttr(a)
    ensures Trim(" " + a) == a
  {
    hide Trim;
    TrimAround(" ", a, "");
    assert " " + a + "" == " " + a;
  }

  lemma PaddedNext(attrs: seq<string>)
    requires forall j :: 0 <= j < |attrs| ==> PlainAttr(attrs[j])
    ensures AnyNext(Padded(attrs)) <==> exists k :: 0 <= k < |attrs| && IsNext(attrs[k])
  {
    hide PlainAttr, Padded, Trim, IsNext;
    PaddedAt(attrs);
    forall k | 0 <= k < |attrs| ensures Trim(Padded(attrs)[k]) == attrs[k] {
      TrimmedAttr(attrs[k]);
    }
  }

  // ----- One link

  /** What the reader makes of one part. */
  function PartUrl(part: string): Option<string> {
    Bracketed(Trim(Split(Trim(part), ';')[0]))
  }

  predicate PartNext(part: string) {
    AnyNext(Split(Trim(part), ';')[1..])
  }

  lemma AttrTextEnds(attrs: seq<string>)
    requires attrs != [] && forall j :: 0 <= j < |attrs| ==> PlainAttr(attrs[j])
    ensures AttrText(attrs) != "" && !IsWs(AttrText(attrs)[|AttrText(attrs)| - 1])
    decreases |attrs|
  {
    assert PlainAttr(attrs[0]);
    if |attrs| > 1 {
      AttrTextEnds(attrs[1..]);
    }
  }

  lemma EntryEnds(l: Link)
    requires forall j :: 0 <= j < |l.attrs| ==> PlainAttr(l.attrs[j])
    ensures Entry(l) != "" && Entry(l)[0] == '<' && !IsWs(Entry(l)[|Entry(l)| - 1])
  {
    hide PlainAttr;
    if l.attrs != [] {
      AttrTextEnds(l.attrs);
    }
  }

  lemma TrimmedEntry(pad: string, l: Link)
    requires AllWs(pad)
    requires forall j :: 0 <= j < |l.attrs| ==> PlainAttr(l.attrs[j])
    ensures Trim(pad + Entry(l)) == Entry(l)
  {
    hide Entry, PlainAttr, Trim;
    EntryEnds(l);
    TrimAround(pad, Entry(l), "");
    assert pad + Entry(l) + "" == pad + Entry(l);
  }

  lemma CleanPart(pad: string, l: Link)
    requires AllWs(pad) && Renderable([l]) && Without(l.url, ';')
    ensures PartUrl(pad + Entry(l)) == Some(l.url)
    ensures PartNext(pad + Entry(l)) <==> exists k :: 0 <= k < |l.attrs| && IsNext(l.attrs[k])
  {
    hide Trim, Split, PlainAttr, AttrText, IsNext, AnyNext;
    assert [l][0] == l;
    TrimmedEntry(pad, l);
    var head := "<" + l.url + ">";
    SplitEntry(head, l.attrs);
    PaddedNext(l.attrs);
    TrimmedHead(l.url);
    assert ([head] + Padded(l.attrs))[1..] == Padded(l.attrs);
  }

  lemma TrimmedHead(url: string)
    ensures Trim("<" + url + ">") == "<" + url + ">"
    ensures Bracketed("<" + url + ">") == Some(url)
  {
    hide Trim;
    TrimAround("", "<" + url + ">", "");
    assert "" + ("<" + url + ">") + "" == "<" + url + ">";
    assert ("<" + url + ">")[1..|url| + 1] == url;
  }

  lemma TrimTakes(s: string, c: char)
    requires Without(s, c)
    ensures Without(Trim(s), c)
  {
    hide TrimStart, TrimEnd, AllWs;
    SuffixTakes(s, TrimStart(s), c);
  }

  lemma SuffixTakes(s: string, r: string, c: char)
    requires Without(s, c) && |r| <= |s| && s == s[..|s| - |r|] + r
    ensures Without(r, c)
  {
    assert forall k :: 0 <= k < |r| ==> r[k] == s[|s| - |r| + k];
  }

  /** A part whose text up to the first semicolon has no closing bracket has no URL. */
  lemma CutPart(part: string)
    requires Without(Split(Trim(part), ';')[0], '>')
    ensures PartUrl(part) == None
  {
    hide Trim, Split;
    TrimTakes(Split(Trim(part), ';')[0], '>');
  }

  /** A semicolon in the URL cuts it. */
  lemma SemicolonCuts(pad: string, l: Link)
    requires AllWs(pad) && Renderable([l]) && !Without(l.url, ';')
    ensures PartUrl(pad + Entry(l)) == None
  {
    hide Trim, Split, PlainAttr, AttrText;
    assert [l][0] == l;
    TrimmedEntry(pad, l);
    var k := FirstPiece(Entry(l), ';');
    var j: nat :| j < |l.url| && l.url[j] == ';';
    assert Entry(l)[j + 1] == ';';
    assert forall i :: 0 <= i < k ==> Entry(l)[..k][i] == (if i == 0 then '<' else l.url[i - 1]);
    CutPart(pad + Entry(l));
  }

  /** So does a comma, already before the semicolons are looked at. */
  lemma CommaCuts(pad: string, url: string, more: string) returns (part: string, parts: seq<string>)
    requires AllWs(pad) && Without(url, '>') && !Without(url, ',')
    ensures Split(pad + "<" + url + more, ',') == [part] + parts
    ensures PartUrl(part) == None
  {
    hide Trim, Split;
    var s := pad + "<" + url + more;
    var k := FirstPiece(s, ',');
    var j: nat :| j < |url| && url[j] == ',';
    assert s[|pad| + 1 + j] == ',';
    assert k <= |pad| ==> k < |s| && s[k] == ',';
    part, parts := s[..k], Split(s, ',')[1..];
    assert forall i :: 0 <= i < k ==> part[i] == s[i];
    assert Without(part, '>') by {
      assert forall i :: 0 <= i < |pad| ==> IsWs(pad[i]);
      assert forall i :: 0 <= i < k ==>
        s[i] == (if i < |pad| then pad[i] else if i == |pad| then '<' else url[i - |pad| - 1]);
    }
    TrimTakes(part, '>');
    var q := FirstPiece(Trim(part), ';');
    CutPart(part);
  }

  // ----- The whole header

  lemma {:induction false} AttrTextWithoutComma(attrs: seq<string>)
    requires forall j :: 0 <= j < |attrs| ==> PlainAttr(attrs[j])
    ensures Without(AttrText(attrs), ',')
    decreases |attrs|
  {
    if attrs != [] {
      assert PlainAttr(attrs[0]);
      AttrTextWithoutComma(attrs[1..]);
    }
  }

  lemma EntryWithoutComma(l: Link)
    requires Renderable([l]) && Without(l.url, ',')
    ensures Without(Entry(l), ',')
  {
    hide PlainAttr, AttrText;
    assert [l][0] == l;
    AttrTextWithoutComma(l.attrs);
  }

  lemma WsHasNoComma(pad: string)
    requires AllWs(pad)
    ensures Without(pad, ',')
  {
  }

  /** The parts of a header whose first URL has no comma. */
  lemma CleanFirst(pad: string, links: seq<Link>)
    requires AllWs(pad) && links != [] && Renderable(links) && Without(links[0].url, ',')
    ensures Split(pad + Header(links), ',') ==
            [pad + Entry(links[0])] + (if |links| == 1 then [] else Split(" " + Header(links[1..]), ','))
  {
    hide Split, Entry, PlainAttr;
    var first := pad + Entry(links[0]);
    assert Renderable([links[0]]);
    EntryWithoutComma(links[0]);
    WsHasNoComma(pad);
    if |links| == 1 {
      SplitWhole(first, ',');
    } else {
      assert pad + Header(links) == first + [','] + (" " + Header(links[1..]));
      SplitAt(first, ',', " " + Header(links[1..]));
    }
  }

  lemma HeaderStarts(links: seq<Link>) returns (more: string)
    requires links != []
    ensures Header(links) == "<" + links[0].url + more
  {
    hide AttrText;
    more := ">" + AttrText(links[0].attrs) + (if |links| == 1 then "" else ", " + Header(links[1..]));
  }

  lemma FirstNextUnfolds(part: string, parts: seq<string>)
    ensures FirstNext([part] + parts) ==
            if PartUrl(part).None? || PartNext(part) then PartUrl(part) else FirstNext(parts)
  {
    hide AnyNext, Bracketed, Split, Trim;
    assert ([part] + parts)[1..] == parts;
  }

  lemma NextAmong(attrs: seq<string>)
    ensures (exists k :: 0 <= k < |attrs| && IsNext(attrs[k])) <==> "rel=\"next\"" in attrs || "rel=next" in attrs
  {
  }

  /** On a rendered header the reader finds exactly the first link with a next relation, provided no URL
    * up to it has a comma or a semicolon; otherwise it finds nothing. */
  lemma {:induction false} FindsNext(pad: string, links: seq<Link>)
    requires AllWs(pad) && links != [] && Renderable(links)
    ensures FirstNext(Split(pad + Header(links), ',')) == Found(links)
    decreases |links|
  {
    hide FirstNext, Split, Entry, Header, PartUrl, PartNext, IsNext, PlainAttr, AllWs;
    var l := links[0];
    assert Renderable([l]) && Renderable(links[1..]);
    NextAmong(l.attrs);
    if !Without(l.url, ',') {
      var more := HeaderStarts(links);
      var part, parts := CommaCuts(pad, l.url, more);
      assert pad + Header(links) == pad + "<" + l.url + more;
      FirstNextUnfolds(part, parts);
    } else {
      CleanFirst(pad, links);
      FirstNextUnfolds(pad + Entry(l), if |links| == 1 then [] else Split(" " + Header(links[1..]), ','));
      if !Without(l.url, ';') {
        SemicolonCuts(pad, l);
      } else {
        CleanPart(pad, l);
        Rest(links);
      }
    }
  }

  lemma Rest(links: seq<Link>)
    requires links != [] && Renderable(links[1..])
    ensures FirstNext(if |links| == 1 then [] else Split(" " + Header(links[1..]), ',')) == Found(links[1..])
    decreases |links|, 0
  {
    hide Split, PlainAttr;
    if |links| > 1 {
      FindsNext(" ", links[1..]);
    }
  }
}
