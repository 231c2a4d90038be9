/** JSON Pointers (RFC 6901) as the patch code reads them. */
module Pointers {
  import opened Text

  /** strings.ReplaceAll of the two-character pattern `a``b` by one character. */
  function ReplacePair(s: string, a: char, b: char, sub: char): string {
    if |s| < 2 then s
    else if s[0] == a && s[1] == b then [sub] + ReplacePair(s[2..], a, b, sub)
    else [s[0]] + ReplacePair(s[1..], a, b, sub)
  }

  function Unescape(segment: string): string {
    ReplacePair(ReplacePair(segment, '~', '1', '/'), '~', '0', '~')
  }

  /** patchPointer: the segments of a path; the empty path has none. */
  function PatchPointer(path: string): seq<string> {
    if path == "" then []
    else
      var raw := Split(if path[0] == '/' then path[1..] else path, '/');
      seq(|raw|, i requires 0 <= i < |raw| => Unescape(raw[i]))
  }

  method ParsePointer(path: string) returns (segments: seq<string>)
    ensures segments == PatchPointer(path)
  {
    if path == "" {
      return [];
    }
    segments := Split(if path[0] == '/' then path[1..] else path, '/');
    ghost var raw := segments;
    for i := 0 to |segments|
      invariant |segments| == |raw|
      invariant forall k :: 0 <= k < |raw| ==> segments[k] == if k < i then Unescape(raw[k]) else raw[k]
    {
      segments := segments[i := Unescape(segments[i])];
    }
  }

  // ----- the other direction, section 3 and 4 of RFC 6901 -----

  function Escape(segment: string): string {
    if segment == [] then ""
    else (if segment[0] == '~' then "~0" else if segment[0] == '/' then "~1" else [segment[0]]) + Escape(segment[1..])
  }

  function EscapeAll(segments: seq<string>): (r: seq<string>)
    ensures |r| == |segments| && forall i :: 0 <= i < |r| ==> r[i] == Escape(segments[i])
  {
    seq(|segments|, i requires 0 <= i < |segments| => Escape(segments[i]))
  }

  function PointerTo(segments: seq<string>): string
    requires segments != []
  {
    "/" + Join(EscapeAll(segments), '/')
  }

  /** Only the tilde escaped: what is left after the first replacement. */
  function EscapeTilde(segment: string): string {
    if segment == [] then ""
    else (if segment[0] == '~' then "~0" else [segment[0]]) + EscapeTilde(segment[1..])
  }

  lemma {:induction false} NoSlash(segment: string)
    ensures '/' !in Escape(segment)
  {
    if segment != [] {
      NoSlash(segment[1..]);
    }
  }

  lemma PairHead(head: char, rest: string, a: char, b: char, sub: char)
    requires head != a || rest == "" || rest[0] != b
    ensures ReplacePair([head] + rest, a, b, sub) == [head] + ReplacePair(rest, a, b, sub)
  {
    assert ([head] + rest)[1..] == rest;
    if rest == "" {
      assert [head] + rest == [head];
    }
  }

  lemma PairHit(rest: string, a: char, b: char, sub: char)
    ensures ReplacePair([a, b] + rest, a, b, sub) == [sub] + ReplacePair(rest, a, b, sub)
  {
    assert ([a, b] + rest)[2..] == rest;
  }

  lemma {:induction false} SlashesBack(segment: string)
    ensures ReplacePair(Escape(segment), '~', '1', '/') == EscapeTilde(segment)
  {
    if segment != [] {
      var rest := Escape(segment[1..]);
      SlashesBack(segment[1..]);
      if segment[0] == '~' {
        assert Escape(segment) == ['~'] + (['0'] + rest);
        PairHead('~', ['0'] + rest, '~', '1', '/');
        PairHead('0', rest, '~', '1', '/');
      } else if segment[0] == '/' {
        assert Escape(segment) == ['~', '1'] + rest;
        PairHit(rest, '~', '1', '/');
      } else {
        PairHead(segment[0], rest, '~', '1', '/');
      }
    }
  }

  lemma {:induction false} TildesBack(segment: string)
    ensures ReplacePair(EscapeTilde(segment), '~', '0', '~') == segment
  {
    if segment != [] {
      var rest := EscapeTilde(segment[1..]);
      TildesBack(segment[1..]);
      if segment[0] == '~' {
        assert EscapeTilde(segment) == ['~', '0'] + rest;
        PairHit(rest, '~', '0', '~');
      } else {
        PairHead(segment[0], rest, '~', '0', '~');
      }
    }
  }

  /** Parsing undoes escaping and joining, for every non-empty list of segments. */
  lemma PointerRoundTrip(segments: seq<string>)
    requires segments != []
    ensures PatchPointer(PointerTo(segments)) == segments
  {
    var escaped := EscapeAll(segments);
    forall i | 0 <= i < |segments| ensures '/' !in escaped[i] && Unescape(escaped[i]) == segments[i] {
      NoSlash(segments[i]);
      SlashesBack(segments[i]);
      TildesBack(segments[i]);
    }
    SplitJoin(escaped, '/');
    assert PointerTo(segments)[1..] == Join(escaped, '/');
  }

  /** The order of the two replacements matters: the other one reads the escaped "~1" as a slash. */
  lemma OrderMatters()
    ensures Unescape(Escape("~1")) == "~1"
    ensures ReplacePair(ReplacePair(Escape("~1"), '~', '0', '~'), '~', '1', '/') == "/"
  {
    SlashesBack("~1");
    TildesBack("~1");
    assert Escape("~1") == ['~', '0'] + "1";
    PairHit("1", '~', '0', '~');
    PairHit("", '~', '1', '/');
  }

  /** A path may leave out its first slash. */
  lemma FirstSlashOptional(path: string)
    requires path != "" && path[0] != '/'
    ensures PatchPointer(path) == PatchPointer("/" + path)
  {
    assert ("/" + path)[1..] == path;
  }
}
