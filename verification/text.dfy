/** Python string primitives used by the bridge: `str.split(sep)`,
    `str.split(sep, maxsplit=2)`, `sep.join(parts)`, `str.replace` for one
    character, `str.strip()` and `str.startswith`, with the laws that tie
    them together. */
module TextUtil {

  /** The characters for which Python's `str.isspace()` holds; these are the
      characters `str.strip()` without arguments removes. */
  predicate IsSpace(c: char) {
    c == ' ' || ('\t' <= c <= '\r') || ('\U{1C}' <= c <= '\U{1F}')
    || c == '\U{85}' || c == '\U{A0}' || c == '\U{1680}'
    || ('\U{2000}' <= c <= '\U{200A}') || c == '\U{2028}' || c == '\U{2029}'
    || c == '\U{202F}' || c == '\U{205F}' || c == '\U{3000}'
  }

  /** Position of the first `c` in `s`, or `|s|` when there is none. */
  function IndexOf(s: string, c: char): (i: nat)
    ensures i <= |s|
    ensures i < |s| ==> s[i] == c
  {
    if s == [] then 0
    else if s[0] == c then 0
    else 1 + IndexOf(s[1..], c)
  }

  /** `IndexOf` finds the FIRST occurrence. */
  lemma {:induction false} IndexOfFirst(s: string, c: char)
    ensures forall k :: 0 <= k < IndexOf(s, c) ==> s[k] != c
  {
    if s != [] && s[0] != c {
      IndexOfFirst(s[1..], c);
    }
  }

  lemma IndexOfAbsent(s: string, c: char)
    requires c !in s
    ensures IndexOf(s, c) == |s|
  {
  }

  /** The first `c` of `p + [c] + t` is the one after `p` when `p` has none. */
  lemma {:induction false} IndexOfAfter(p: string, c: char, t: string)
    requires c !in p
    ensures IndexOf(p + [c] + t, c) == |p|
  {
    if p != [] {
      assert (p + [c] + t)[1..] == p[1..] + [c] + t;
      IndexOfAfter(p[1..], c, t);
    }
  }

  /** `s.split(c)`: the pieces between occurrences of `c`, empty pieces kept;
      there is always at least one piece. */
  function Split(s: string, c: char): (r: seq<string>)
    ensures |r| >= 1
    decreases |s|
  {
    var i := IndexOf(s, c);
    if i == |s| then [s] else [s[..i]] + Split(s[i + 1..], c)
  }

  /** `c.join(ps)`. */
  function Join(ps: seq<string>, c: char): string
  {
    if ps == [] then ""
    else if |ps| == 1 then ps[0]
    else ps[0] + [c] + Join(ps[1..], c)
  }

  /** `s.replace(a, b)` for single characters. */
  function ReplaceChar(s: string, a: char, b: char): (r: string)
    ensures |r| == |s|
  {
    if s == [] then "" else [if s[0] == a then b else s[0]] + ReplaceChar(s[1..], a, b)
  }

  /** Each character of `s` is replaced independently. */
  lemma {:induction false} ReplaceCharAt(s: string, a: char, b: char)
    ensures forall k :: 0 <= k < |s| ==> ReplaceChar(s, a, b)[k] == (if s[k] == a then b else s[k])
  {
    if s != [] {
      ReplaceCharAt(s[1..], a, b);
    }
  }

  /** `s.startswith(p)`. */
  predicate StartsWith(s: string, p: string) {
    |p| <= |s| && s[..|p|] == p
  }

  /** Number of leading whitespace characters of `s`. */
  function LeadingSpace(s: string): (n: nat)
    ensures n <= |s|
  {
    if s != [] && IsSpace(s[0]) then 1 + LeadingSpace(s[1..]) else 0
  }

  /** `LeadingSpace` counts exactly the whitespace run at the start. */
  lemma {:induction false} LeadingSpaceRun(s: string)
    ensures forall k :: 0 <= k < LeadingSpace(s) ==> IsSpace(s[k])
    ensures LeadingSpace(s) < |s| ==> !IsSpace(s[LeadingSpace(s)])
  {
    if s != [] && IsSpace(s[0]) {
      LeadingSpaceRun(s[1..]);
    }
  }

  /** Number of trailing whitespace characters of `s`. */
  function TrailingSpace(s: string): (n: nat)
    ensures n <= |s|
  {
    if s != [] && IsSpace(s[|s| - 1]) then 1 + TrailingSpace(s[..|s| - 1]) else 0
  }

  /** `TrailingSpace` counts exactly the whitespace run at the end. */
  lemma {:induction false} TrailingSpaceRun(s: string)
    ensures forall k :: |s| - TrailingSpace(s) <= k < |s| ==> IsSpace(s[k])
    ensures TrailingSpace(s) < |s| ==> !IsSpace(s[|s| - 1 - TrailingSpace(s)])
  {
    if s != [] && IsSpace(s[|s| - 1]) {
      TrailingSpaceRun(s[..|s| - 1]);
    }
  }

  /** `s.strip()`: `s` without its leading and trailing whitespace. */
  function Strip(s: string): string
  {
    var lead := LeadingSpace(s);
    var rest := s[lead..];
    rest[..|rest| - TrailingSpace(rest)]
  }

  /** A string with no whitespace at either end. */
  predicate Trimmed(s: string) {
    s == [] || (!IsSpace(s[0]) && !IsSpace(s[|s| - 1]))
  }

  /** `Strip` removes exactly whitespace: the result is a slice of `s`, every
      character cut off is whitespace and the result has none at its ends. */
  lemma StripIsTrimmedSlice(s: string)
    ensures Trimmed(Strip(s))
    ensures exists i, j :: 0 <= i <= j <= |s| && Strip(s) == s[i..j]
                           && (forall k :: 0 <= k < i ==> IsSpace(s[k]))
                           && (forall k :: j <= k < |s| ==> IsSpace(s[k]))
  {
    var lead := LeadingSpace(s);
    var rest := s[lead..];
    var trail := TrailingSpace(rest);
    var j := |s| - trail;
    LeadingSpaceRun(s);
    TrailingSpaceRun(rest);
    assert Strip(s) == s[lead..j];
    if lead < |s| {
      assert rest[0] == s[lead];
      assert trail < |rest|;
    }
    forall k | j <= k < |s| ensures IsSpace(s[k]) {
      assert s[k] == rest[k - lead];
    }
  }

  /** A string that is already trimmed is left alone by `Strip`. */
  lemma StripTrimmed(s: string)
    requires Trimmed(s)
    ensures Strip(s) == s
  {
    assert LeadingSpace(s) == 0;
    assert s[0..] == s;
    assert TrailingSpace(s) == 0;
  }

  /** `Strip` is idempotent. */
  lemma StripIdempotent(s: string)
    ensures Strip(Strip(s)) == Strip(s)
  {
    StripIsTrimmedSlice(s);
    StripTrimmed(Strip(s));
  }

  /** No piece produced by `Split` contains the separator. */
  lemma {:induction false} SplitPiecesFree(s: string, c: char)
    ensures forall p :: p in Split(s, c) ==> c !in p
    decreases |s|
  {
    var i := IndexOf(s, c);
    if i < |s| {
      SplitPiecesFree(s[i + 1..], c);
      IndexOfFirst(s, c);
      assert c !in s[..i];
    } else {
      IndexOfAbsentBack(s, c);
    }
  }

  /** A character absent from the input is absent from every piece. */
  lemma {:induction false} SplitPiecesKeepOut(s: string, c: char, d: char)
    requires d !in s
    ensures forall p :: p in Split(s, c) ==> d !in p
    decreases |s|
  {
    var i := IndexOf(s, c);
    if i < |s| {
      SplitPiecesKeepOut(s[i + 1..], c, d);
      assert forall k :: 0 <= k < i ==> s[..i][k] == s[k];
    }
  }

  /** Joining the pieces of a split gives the original string back. */
  lemma {:induction false} JoinSplit(s: string, c: char)
    ensures Join(Split(s, c), c) == s
    decreases |s|
  {
    var i := IndexOf(s, c);
    if i < |s| {
      var tail := Split(s[i + 1..], c);
      JoinSplit(s[i + 1..], c);
      assert Split(s, c) == [s[..i]] + tail;
      assert Join(Split(s, c), c) == s[..i] + [c] + Join(tail, c);
      assert s == s[..i] + [c] + s[i + 1..];
    }
  }

  /** Splitting the join of separator-free pieces gives the pieces back. */
  lemma {:induction false} SplitJoin(ps: seq<string>, c: char)
    requires |ps| >= 1
    requires forall p :: p in ps ==> c !in p
    ensures Split(Join(ps, c), c) == ps
    decreases |ps|
  {
    var p := ps[0];
    assert c !in p;
    if |ps| == 1 {
      IndexOfAbsent(p, c);
    } else {
      var s := Join(ps, c);
      var rest := Join(ps[1..], c);
      assert s == p + [c] + rest;
      IndexOfAfter(p, c, rest);
      assert s[..|p|] == p;
      assert s[|p| + 1..] == rest;
      SplitJoin(ps[1..], c);
      assert ps == [p] + ps[1..];
    }
  }

  /** Joining non-empty trimmed pieces gives a non-empty trimmed string:
      the separator only ever sits between two pieces. */
  lemma {:induction false} JoinTrimmed(ps: seq<string>, c: char)
    requires forall p :: p in ps ==> p != "" && Trimmed(p)
    ensures Trimmed(Join(ps, c))
    ensures ps != [] ==> Join(ps, c) != ""
    decreases |ps|
  {
    if |ps| > 1 {
      assert ps[0] in ps;
      forall p | p in ps[1..] ensures p != "" && Trimmed(p) {
        assert p in ps;
      }
      JoinTrimmed(ps[1..], c);
      var rest := Join(ps[1..], c);
      var s := Join(ps, c);
      assert s == ps[0] + [c] + rest;
      assert s[0] == ps[0][0];
      assert s[|s| - 1] == rest[|rest| - 1];
    } else if |ps| == 1 {
      assert ps[0] in ps;
    }
  }

  /** Replacing `a` by `b` twice is replacing it once, provided `b` is not `a`. */
  lemma ReplaceCharIdempotent(s: string, a: char, b: char)
    requires a != b
    ensures ReplaceChar(ReplaceChar(s, a, b), a, b) == ReplaceChar(s, a, b)
  {
    ReplaceCharAt(s, a, b);
    ReplaceCharAt(ReplaceChar(s, a, b), a, b);
  }

  /** Pieces free of `a`, joined with `a` and then with `a` replaced by `b`,
      are the same pieces joined with `b`. */
  lemma {:induction false} ReplaceJoin(ps: seq<string>, a: char, b: char)
    requires forall p :: p in ps ==> a !in p
    ensures ReplaceChar(Join(ps, a), a, b) == Join(ps, b)
    decreases |ps|
  {
    if |ps| > 1 {
      ReplaceJoin(ps[1..], a, b);
      ReplaceFree(ps[0], a, b);
      ReplaceAppend(ps[0] + [a], Join(ps[1..], a), a, b);
      ReplaceAppend(ps[0], [a], a, b);
    } else if |ps| == 1 {
      ReplaceFree(ps[0], a, b);
    }
  }

  lemma ReplaceFree(s: string, a: char, b: char)
    requires a !in s
    ensures ReplaceChar(s, a, b) == s
  {
    ReplaceCharAt(s, a, b);
    assert forall k :: 0 <= k < |s| ==> s[k] != a;
  }

  lemma ReplaceAppend(s: string, t: string, a: char, b: char)
    ensures ReplaceChar(s + t, a, b) == ReplaceChar(s, a, b) + ReplaceChar(t, a, b)
  {
    ReplaceCharAt(s + t, a, b);
    ReplaceCharAt(s, a, b);
    ReplaceCharAt(t, a, b);
  }

  lemma Join3(a: string, b: string, d: string, c: char)
    ensures Join([a, b, d], c) == (a + [c]) + ((b + [c]) + d)
  {
    assert [a, b, d][1..] == [b, d];
    assert [b, d][1..] == [d];
    assert Join([b, d], c) == (b + [c]) + d;
    assert Join([a, b, d], c) == (a + [c]) + Join([b, d], c);
  }

  /** `s.split(c, maxsplit=2)`: at most three pieces; the third keeps any
      further separators. */
  function SplitMax2(s: string, c: char): (r: seq<string>)
  {
    var i := IndexOf(s, c);
    if i == |s| then [s]
    else
      var rest := s[i + 1..];
      var j := IndexOf(rest, c);
      if j == |rest| then [s[..i], rest] else [s[..i], rest[..j], rest[j + 1..]]
  }

  /** `SplitMax2` is a split: its pieces join back to the input, there are
      at most three and only the last may contain the separator. */
  lemma SplitMax2Law(s: string, c: char)
    ensures 1 <= |SplitMax2(s, c)| <= 3
    ensures Join(SplitMax2(s, c), c) == s
    ensures forall k :: 0 <= k < |SplitMax2(s, c)| - 1 ==> c !in SplitMax2(s, c)[k]
  {
    var i := IndexOf(s, c);
    if i < |s| {
      var rest := s[i + 1..];
      var j := IndexOf(rest, c);
      if j < |rest| {
        SplitThree(s, c, i, j);
      } else {
        SplitTwo(s, c, i);
      }
    }
  }

  lemma SplitThree(s: string, c: char, i: nat, j: nat)
    requires i == IndexOf(s, c) < |s|
    requires j == IndexOf(s[i + 1..], c) < |s| - i - 1
    ensures SplitMax2(s, c) == [s[..i], s[i + 1..][..j], s[i + 1..][j + 1..]]
    ensures Join(SplitMax2(s, c), c) == s
    ensures c !in s[..i] && c !in s[i + 1..][..j]
  {
    var rest := s[i + 1..];
    SplitAt(s, i, c);
    SplitAt(rest, j, c);
    Join3(s[..i], rest[..j], rest[j + 1..], c);
    BeforeFirst(s, c);
    BeforeFirst(rest, c);
  }

  lemma SplitTwo(s: string, c: char, i: nat)
    requires i == IndexOf(s, c) < |s|
    requires IndexOf(s[i + 1..], c) == |s| - i - 1
    ensures SplitMax2(s, c) == [s[..i], s[i + 1..]]
    ensures Join(SplitMax2(s, c), c) == s
    ensures c !in s[..i]
  {
    var r := [s[..i], s[i + 1..]];
    SplitAt(s, i, c);
    BeforeFirst(s, c);
    assert r[1..] == [s[i + 1..]];
    assert Join(r, c) == (s[..i] + [c]) + s[i + 1..];
  }

  /** A string is what comes before position `i`, the character there,
      and what comes after. */
  lemma SplitAt(s: string, i: nat, c: char)
    requires i < |s| && s[i] == c
    ensures s == (s[..i] + [c]) + s[i + 1..]
  {
  }

  /** Nothing before the first occurrence is the character. */
  lemma BeforeFirst(s: string, c: char)
    ensures c !in s[..IndexOf(s, c)]
  {
    IndexOfFirst(s, c);
    var i := IndexOf(s, c);
    assert forall k :: 0 <= k < i ==> s[..i][k] == s[k];
  }

  /** `SplitMax2` yields three pieces exactly when the input holds at least
      two separators. */
  lemma SplitMax2Three(s: string, c: char)
    ensures |SplitMax2(s, c)| == 3 <==> exists i, j :: 0 <= i < j < |s| && s[i] == c && s[j] == c
  {
    var i := IndexOf(s, c);
    IndexOfFirst(s, c);
    if i < |s| {
      var rest := s[i + 1..];
      var j := IndexOf(rest, c);
      IndexOfFirst(rest, c);
      if j < |rest| {
        assert s[i + 1 + j] == rest[j];
      } else {
        IndexOfAbsentBack(rest, c);
        forall i', j' | 0 <= i' < j' < |s| && s[i'] == c ensures s[j'] != c {
          assert s[j'] == rest[j' - i - 1];
        }
      }
    } else {
      IndexOfAbsentBack(s, c);
    }
  }

  lemma IndexOfAbsentBack(s: string, c: char)
    requires IndexOf(s, c) == |s|
    ensures forall k :: 0 <= k < |s| ==> s[k] != c
  {
    IndexOfFirst(s, c);
  }

  /** The pieces of `ps` that are not empty, in order (`p for p in ps if p`). */
  function NonEmpty(ps: seq<string>): (r: seq<string>)
    ensures forall p :: p in r ==> p in ps && p != ""
    ensures forall p :: p in ps && p != "" ==> p in r
  {
    if ps == [] then []
    else (if ps[0] == "" then [] else [ps[0]]) + NonEmpty(ps[1..])
  }
}
