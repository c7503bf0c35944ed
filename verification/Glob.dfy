/** The S3 connector's glob matcher: `*` for anything but a slash, `?` for one symbol but a slash; what it
  * means for symbols, and how matching bytes differs from matching characters. */
module Glob {
  import opened Utf8

  const STAR: nat := '*' as int
  const MARK: nat := '?' as int
  const SLASH: nat := '/' as int

  /** `glob_match_impl`, on symbols of any kind; the connector gives it the bytes of two texts. */
  predicate GlobMatch(p: seq<nat>, v: seq<nat>)
    decreases |p| + |v|
  {
    if p == [] then v == []
    else if p[0] == STAR then
      if v == [] || v[0] == SLASH then GlobMatch(p[1..], v)
      else GlobMatch(p[1..], v) || GlobMatch(p, v[1..])
    else if v == [] then false
    else if p[0] == MARK && v[0] != SLASH then GlobMatch(p[1..], v[1..])
    else p[0] == v[0] && GlobMatch(p[1..], v[1..])
  }

  // ----- What a pattern stands for

  predicate SlashFree(s: seq<nat>) {
    SLASH !in s
  }

  /** A text one pattern symbol may stand for. A question mark also stands for itself, which is one symbol
    * and no slash anyway. */
  predicate StandsFor(b: nat, piece: seq<nat>) {
    if b == STAR then SlashFree(piece)
    else if b == MARK then |piece| == 1 && SlashFree(piece)
    else piece == [b]
  }

  function Joined(pieces: seq<seq<nat>>): seq<nat> {
    if pieces == [] then [] else pieces[0] + Joined(pieces[1..])
  }

  /** One piece for each pattern symbol, together the whole value. */
  predicate Rebuilds(p: seq<nat>, pieces: seq<seq<nat>>, v: seq<nat>) {
    && |pieces| == |p|
    && (forall k :: 0 <= k < |p| ==> StandsFor(p[k], pieces[k]))
    && Joined(pieces) == v
  }

  lemma RebuildsCons(b: nat, p: seq<nat>, piece: seq<nat>, pieces: seq<seq<nat>>, v: seq<nat>)
    requires Rebuilds(p, pieces, v) && StandsFor(b, piece)
    ensures Rebuilds([b] + p, [piece] + pieces, piece + v)
  {
    assert ([piece] + pieces)[1..] == pieces;
  }

  /** A match comes with pieces that rebuild the value. */
  lemma {:induction false} Sound(p: seq<nat>, v: seq<nat>) returns (pieces: seq<seq<nat>>)
    requires GlobMatch(p, v)
    ensures Rebuilds(p, pieces, v)
    decreases |p| + |v|
  {
    hide Rebuilds;
    if p == [] {
      pieces := [];
      assert Rebuilds([], [], []) by { NoPieces(); }
    } else {
      assert p == [p[0]] + p[1..];
      if p[0] == STAR {
        if GlobMatch(p[1..], v) {
          var rest := Sound(p[1..], v);
          RebuildsCons(p[0], p[1..], [], rest, v);
          pieces := [[]] + rest;
          assert [] + v == v;
        } else {
          var rest := Sound(p, v[1..]);
          pieces := LongerStar(p, rest, v);
        }
      } else {
        var rest := Sound(p[1..], v[1..]);
        RebuildsCons(p[0], p[1..], [v[0]], rest, v[1..]);
        pieces := [[v[0]]] + rest;
        assert [v[0]] + v[1..] == v;
      }
    }
  }

  lemma NoPieces()
    ensures Rebuilds([], [], [])
  {
  }

  lemma LongerStar(p: seq<nat>, rest: seq<seq<nat>>, v: seq<nat>) returns (pieces: seq<seq<nat>>)
    requires p != [] && p[0] == STAR && v != [] && v[0] != SLASH && Rebuilds(p, rest, v[1..])
    ensures Rebuilds(p, pieces, v)
  {
    assert StandsFor(p[0], rest[0]);
    pieces := [[v[0]] + rest[0]] + rest[1..];
    assert pieces[1..] == rest[1..];
    assert v == [v[0]] + v[1..];
    assert ([v[0]] + rest[0]) + Joined(rest[1..]) == [v[0]] + (rest[0] + Joined(rest[1..]));
  }

  /** Any pieces that rebuild the value are found. */
  lemma {:induction false} Complete(p: seq<nat>, pieces: seq<seq<nat>>, v: seq<nat>)
    requires Rebuilds(p, pieces, v)
    ensures GlobMatch(p, v)
    decreases |p| + |v|
  {
    if p != [] {
      assert StandsFor(p[0], pieces[0]);
      var rest := Joined(pieces[1..]);
      if p[0] == STAR && pieces[0] != [] {
        assert v[0] == pieces[0][0];
        assert v[0] in pieces[0];
        var shorter := [pieces[0][1..]] + pieces[1..];
        assert shorter[1..] == pieces[1..];
        assert v[1..] == pieces[0][1..] + rest;
        assert SlashFree(pieces[0][1..]);
        Complete(p, shorter, v[1..]);
      } else if p[0] == STAR {
        assert v == rest;
        Complete(p[1..], pieces[1..], v);
      } else {
        assert v[0] == pieces[0][0] && v[0] in pieces[0];
        assert v[1..] == rest;
        Complete(p[1..], pieces[1..], v[1..]);
      }
    }
  }

  /** The matcher accepts exactly the values some choice of pieces rebuilds. */
  lemma Exact(p: seq<nat>, v: seq<nat>)
    ensures GlobMatch(p, v) <==> exists pieces :: Rebuilds(p, pieces, v)
  {
    hide GlobMatch, Rebuilds;
    if GlobMatch(p, v) {
      var pieces := Sound(p, v);
    } else {
      forall pieces | Rebuilds(p, pieces, v) ensures false {
        Complete(p, pieces, v);
      }
    }
  }

  /** A pattern of question marks matches exactly the slash-free values of its length. */
  lemma {:induction false} MarksCount(p: seq<nat>, v: seq<nat>)
    requires forall k :: 0 <= k < |p| ==> p[k] == MARK
    ensures GlobMatch(p, v) <==> |v| == |p| && SlashFree(v)
  {
    if p != [] && v != [] {
      MarksCount(p[1..], v[1..]);
      assert v == [v[0]] + v[1..];
    }
  }

  /** A star never crosses a slash: a pattern without a slash matches no value with one. */
  lemma SlashNeedsSlash(p: seq<nat>, v: seq<nat>)
    requires SlashFree(p) && GlobMatch(p, v)
    ensures SlashFree(v)
  {
    hide GlobMatch;
    var pieces := Sound(p, v);
    PiecesSlashFree(p, pieces, v);
  }

  lemma {:induction false} PiecesSlashFree(p: seq<nat>, pieces: seq<seq<nat>>, v: seq<nat>)
    requires SlashFree(p) && Rebuilds(p, pieces, v)
    ensures SlashFree(v)
  {
    if p != [] {
      assert p[0] in p;
      assert StandsFor(p[0], pieces[0]);
      PiecesSlashFree(p[1..], pieces[1..], Joined(pieces[1..]));
    }
  }

  // ----- Bytes and characters

  /** `glob_match`. */
  predicate ByteMatch(pattern: string, value: string) {
    GlobMatch(TextBytes(pattern), TextBytes(value))
  }

  function Codes(s: string): (r: seq<nat>)
    ensures |r| == |s|
  {
    if s == "" then [] else [s[0] as int] + Codes(s[1..])
  }

  /** The matcher the comment describes, on characters. */
  predicate CharMatch(pattern: string, value: string) {
    GlobMatch(Codes(pattern), Codes(value))
  }

  lemma {:induction false} AsciiBytes(s: string)
    requires Ascii(s)
    ensures TextBytes(s) == Codes(s)
    ensures forall x :: x in Codes(s) ==> x < 0x80
  {
    if s != "" {
      AsciiBytes(s[1..]);
    }
  }

  /** A pattern symbol that stands only for itself has to be in the value. */
  lemma {:induction false} NeedsLiteral(p: seq<nat>, v: seq<nat>, x: nat)
    requires x in p && x != STAR && x != MARK && x !in v
    ensures !GlobMatch(p, v)
    decreases |p| + |v|
  {
    assert p == [p[0]] + p[1..];
    if p[0] == STAR {
      NeedsLiteral(p[1..], v, x);
      if v != [] {
        assert x !in v[1..];
        NeedsLiteral(p, v[1..], x);
      }
    } else if p[0] != x && v != [] {
      assert x !in v[1..];
      NeedsLiteral(p[1..], v[1..], x);
    } else if v != [] {
      assert v[0] in v;
    }
  }

  lemma {:induction false} BeyondAscii(s: string) returns (b: nat, c: nat)
    requires !Ascii(s)
    ensures b >= 0x80 && b in TextBytes(s) && c >= 0x80 && c in Codes(s)
  {
    if s[0] as int >= 0x80 {
      c := s[0] as int;
      b := CharBytes(s[0])[0];
      assert b in CharBytes(s[0]);
    } else {
      assert s == [s[0]] + s[1..];
      b, c := BeyondAscii(s[1..]);
    }
  }

  /** On ASCII values every pattern matches the same bytes as characters. */
  lemma AsciiAgrees(pattern: string, value: string)
    requires Ascii(value)
    ensures ByteMatch(pattern, value) <==> CharMatch(pattern, value)
  {
    hide GlobMatch, TextBytes, Codes;
    AsciiBytes(value);
    if Ascii(pattern) {
      AsciiBytes(pattern);
    } else {
      var b, c := BeyondAscii(pattern);
      NeedsLiteral(TextBytes(pattern), TextBytes(value), b);
      NeedsLiteral(Codes(pattern), Codes(value), c);
    }
  }

  lemma {:induction false} SlashesAgree(s: string)
    ensures SLASH in TextBytes(s) <==> '/' in s
    ensures SLASH in Codes(s) <==> '/' in s
  {
    if s != "" {
      SlashesAgree(s[1..]);
      assert s == [s[0]] + s[1..];
      SlashByte(s[0]);
      hide CharBytes;
    }
  }

  lemma SlashByte(c: char)
    ensures SLASH in CharBytes(c) <==> c == '/'
  {
    var r := CharBytes(c);
    if c as int >= 0x80 {
      assert forall k :: 0 <= k < |r| ==> r[k] >= 0x80;
    } else {
      assert r == [c as int];
    }
  }

  predicate Marks(pattern: string) {
    forall k :: 0 <= k < |pattern| ==> pattern[k] == '?'
  }

  lemma {:induction false} MarkSymbols(pattern: string)
    requires Marks(pattern)
    ensures TextBytes(pattern) == Codes(pattern)
    ensures forall k :: 0 <= k < |pattern| ==> Codes(pattern)[k] == MARK
  {
    if pattern != "" {
      MarkSymbols(pattern[1..]);
    }
  }

  /** A pattern of question marks counts bytes where the comment counts characters. The two agree exactly
    * when the value is ASCII, has a slash, or has neither as many bytes nor as many characters. */
  lemma MarksAgreeExactly(pattern: string, value: string)
    requires Marks(pattern)
    ensures (ByteMatch(pattern, value) <==> CharMatch(pattern, value)) <==>
            Ascii(value) || '/' in value || (|pattern| != |value| && |pattern| != ByteLen(value))
  {
    hide GlobMatch, TextBytes, Codes, ByteLen, Marks;
    MarkSymbols(pattern);
    MarksCount(TextBytes(pattern), TextBytes(value));
    MarksCount(Codes(pattern), Codes(value));
    TextBytesLength(value);
    SlashesAgree(value);
    AsciiLength(value);
  }

  /** So a slash-free value matches alike for every number of question marks exactly when it is ASCII. */
  lemma AllMarksAgreeExactly(value: string)
    requires '/' !in value
    ensures (forall pattern :: Marks(pattern) ==> (ByteMatch(pattern, value) <==> CharMatch(pattern, value)))
            <==> Ascii(value)
  {
    hide ByteMatch, CharMatch, Ascii;
    forall pattern | Marks(pattern)
      ensures Ascii(value) ==> (ByteMatch(pattern, value) <==> CharMatch(pattern, value))
    {
      MarksAgreeExactly(pattern, value);
    }
    var same := seq(|value|, _ => '?');
    assert Marks(same);
    MarksAgreeExactly(same, value);
  }

  /** One character of two bytes: the comment promises a match, the matcher refuses. */
  lemma MarkMissesAccent()
    ensures CharMatch("?", "\U{00E9}") && !ByteMatch("?", "\U{00E9}")
  {
    var value := "\U{00E9}";
    assert value[0] as int == 0xE9;
    MarkSymbols("?");
    MarksCount(TextBytes("?"), TextBytes(value));
    MarksCount(Codes("?"), Codes(value));
    TextBytesLength(value);
    assert value[1..] == "";
    SlashesAgree(value);
  }
}
