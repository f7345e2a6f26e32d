/** The two string operations the de-duplication filter uses:
    `String.prototype.includes` and `String.prototype.split` with a
    one-character separator. */
module JsStrings {

  /** `needle` is a prefix of `hay`. */
  predicate StartsWith(hay: string, needle: string) {
    |needle| <= |hay| && hay[..|needle|] == needle
  }

  /** `hay.includes(needle)`: `needle` occurs in `hay` as a contiguous
      substring. The empty string occurs in every string. */
  predicate Includes(hay: string, needle: string)
    ensures Includes(hay, needle) ==> |needle| <= |hay|
    decreases |hay|
  {
    StartsWith(hay, needle) || (hay != [] && Includes(hay[1..], needle))
  }

  /** Reference definition: `needle` occurs in `hay` starting at offset `i`. */
  predicate OccursAt(hay: string, needle: string, i: int) {
    0 <= i && i + |needle| <= |hay| && hay[i..i + |needle|] == needle
  }

  /** `Includes` agrees with the offset-based definition of a substring. */
  lemma {:induction false} IncludesIffOccurs(hay: string, needle: string)
    ensures Includes(hay, needle) <==> exists i :: OccursAt(hay, needle, i)
    decreases |hay|
  {
    if exists i :: OccursAt(hay, needle, i) {
      var i :| OccursAt(hay, needle, i);
      if i > 0 {
        assert hay[1..][i - 1..i - 1 + |needle|] == hay[i..i + |needle|];
        assert OccursAt(hay[1..], needle, i - 1);
        IncludesIffOccurs(hay[1..], needle);
      }
    }
    if StartsWith(hay, needle) {
      assert hay[0..|needle|] == needle;
      assert OccursAt(hay, needle, 0);
    } else if Includes(hay, needle) {
      IncludesIffOccurs(hay[1..], needle);
      var i :| OccursAt(hay[1..], needle, i);
      assert hay[1..][i..i + |needle|] == hay[i + 1..i + 1 + |needle|];
      assert OccursAt(hay, needle, i + 1);
    }
  }

  /** A string includes every one of its prefixes, the empty one among them. */
  lemma IncludesPrefix(hay: string, p: string)
    requires StartsWith(hay, p)
    ensures Includes(hay, p)
  {
  }

  /** `s.split(sep)[0]`: the text before the first `sep`, all of `s` when
      it has none. */
  function FirstSegment(s: string, sep: char): (seg: string)
    ensures StartsWith(s, seg)
    ensures sep !in seg
    ensures |seg| == |s| || s[|seg|] == sep
    decreases |s|
  {
    if s == [] || s[0] == sep then [] else [s[0]] + FirstSegment(s[1..], sep)
  }

  /** `s.split(sep)`: the maximal runs of `s` between occurrences of `sep`;
      a string with k separators gives k + 1 segments, some of them empty. */
  function Split(s: string, sep: char): (parts: seq<string>)
    ensures |parts| >= 1
    ensures parts[0] == FirstSegment(s, sep)
    ensures forall k :: 0 <= k < |parts| ==> sep !in parts[k]
    decreases |s|
  {
    var seg := FirstSegment(s, sep);
    if |seg| == |s| then [s] else [seg] + Split(s[|seg| + 1..], sep)
  }

  /** `parts.join(sep)`. */
  function Join(parts: seq<string>, sep: char): string
    requires |parts| >= 1
  {
    if |parts| == 1 then parts[0] else parts[0] + [sep] + Join(parts[1..], sep)
  }

  /** Splitting loses nothing: joining the segments with the separator
      gives the original string back. */
  lemma {:induction false} JoinSplit(s: string, sep: char)
    ensures Join(Split(s, sep), sep) == s
    decreases |s|
  {
    var seg := FirstSegment(s, sep);
    if |seg| < |s| {
      var rest := s[|seg| + 1..];
      var parts := Split(s, sep);
      assert parts == [seg] + Split(rest, sep);
      assert parts[1..] == Split(rest, sep);
      JoinSplit(rest, sep);
      calc {
        Join(parts, sep);
        parts[0] + [sep] + Join(parts[1..], sep);
        seg + [sep] + rest;
        { assert s[..|seg|] == seg && s[|seg|] == sep; assert s == s[..|seg|] + [s[|seg|]] + s[|seg| + 1..]; }
        s;
      }
    }
  }

  /** The first segment is empty exactly when the string is empty or starts
      with the separator. */
  lemma FirstSegmentEmpty(s: string, sep: char)
    ensures Split(s, sep)[0] == [] <==> (s == [] || s[0] == sep)
  {
  }
}
