/** Sequence searching, splitting and joining, in the sense of Go's `strings`
    package (`Index`, `Split`, `Join`). The functions are generic in the
    element type, so they read the same over bytes and over characters. */
module Text {

  datatype Option<T> = None | Some(value: T)

  /** `pat` occurs in `s` starting at position `i`. */
  predicate MatchAt<T(==)>(s: seq<T>, pat: seq<T>, i: nat) {
    i + |pat| <= |s| && s[i..i + |pat|] == pat
  }

  /** `pat` occurs somewhere in `s`. */
  predicate Occurs<T(==)>(pat: seq<T>, s: seq<T>) {
    exists i: nat | i <= |s| :: MatchAt(s, pat, i)
  }

  /** `p` is a prefix of `s`. */
  predicate IsPrefix<T(==)>(p: seq<T>, s: seq<T>) {
    |p| <= |s| && s[..|p|] == p
  }

  /** `p` is a suffix of `s`. */
  predicate IsSuffix<T(==)>(p: seq<T>, s: seq<T>) {
    |p| <= |s| && s[|s| - |p|..] == p
  }

  /** A match in `s` after its first position is a match in `s[1..]` one
      position earlier. */
  lemma MatchAtTail<T>(s: seq<T>, pat: seq<T>, j: nat)
    requires |s| > 0 && j >= 1
    ensures MatchAt(s, pat, j) <==> MatchAt(s[1..], pat, j - 1)
  {
    if j + |pat| <= |s| {
      assert s[1..][j - 1..j - 1 + |pat|] == s[j..j + |pat|];
    }
  }

  /** A one-element pattern matches exactly where that element stands. */
  lemma MatchAtSingle<T>(s: seq<T>, d: T, j: nat)
    ensures MatchAt(s, [d], j) <==> j < |s| && s[j] == d
  {
    if j < |s| {
      assert s[j..j + 1] == [s[j]];
    }
  }

  /** The position of the leftmost occurrence of `pat` in `s` (Go's
      `strings.Index`, with `None` for its -1). */
  function Index<T(==)>(s: seq<T>, pat: seq<T>): (r: Option<nat>)
    ensures r.Some? ==> r.value + |pat| <= |s|
    decreases |s|
  {
    if |s| < |pat| then None
    else if s[..|pat|] == pat then Some(0)
    else
      match Index(s[1..], pat)
      case None => None
      case Some(k) => Some(k + 1)
  }

  /** `Index` finds a match, no match lies before it, and it finds nothing
      only when there is no match at all. */
  lemma {:induction false} IndexCorrect<T>(s: seq<T>, pat: seq<T>)
    ensures Index(s, pat).Some? ==> MatchAt(s, pat, Index(s, pat).value)
    ensures Index(s, pat).Some? ==> forall j: nat :: j < Index(s, pat).value ==> !MatchAt(s, pat, j)
    ensures Index(s, pat).None? ==> forall j: nat :: !MatchAt(s, pat, j)
    decreases |s|
  {
    if |s| < |pat| {
    } else if s[..|pat|] == pat {
    } else {
      IndexCorrect(s[1..], pat);
      assert !MatchAt(s, pat, 0);
      forall j: nat | j >= 1 ensures MatchAt(s, pat, j) <==> MatchAt(s[1..], pat, j - 1) {
        MatchAtTail(s, pat, j);
      }
    }
  }

  /** Any position that is a match with no match before it is what `Index`
      returns: the leftmost match is unique. */
  lemma IndexIsLeftmost<T>(s: seq<T>, pat: seq<T>, i: nat)
    requires MatchAt(s, pat, i)
    requires forall j: nat :: j < i ==> !MatchAt(s, pat, j)
    ensures Index(s, pat) == Some(i)
  {
    IndexCorrect(s, pat);
  }

  /** The pieces of `s` between the non-overlapping occurrences of `sep`,
      found left to right (Go's `strings.Split` for a non-empty separator). */
  function Split<T(==)>(s: seq<T>, sep: seq<T>): (parts: seq<seq<T>>)
    requires sep != []
    ensures |parts| >= 1
    decreases |s|
  {
    match Index(s, sep)
    case None => [s]
    case Some(i) => [s[..i]] + Split(s[i + |sep|..], sep)
  }

  /** The pieces concatenated with `sep` between neighbours (Go's
      `strings.Join`). */
  function Join<T>(parts: seq<seq<T>>, sep: seq<T>): seq<T>
  {
    if |parts| == 0 then []
    else if |parts| == 1 then parts[0]
    else parts[0] + sep + Join(parts[1..], sep)
  }

  /** Joining a piece in front of at least one other puts the separator
      between it and the join of the others. */
  lemma JoinCons<T>(x: seq<T>, parts: seq<seq<T>>, sep: seq<T>)
    requires |parts| >= 1
    ensures Join([x] + parts, sep) == x + sep + Join(parts, sep)
  {
    assert ([x] + parts)[1..] == parts;
  }

  /** Joining one more piece at the end appends the separator and the piece. */
  lemma {:induction false} JoinSnoc<T>(parts: seq<seq<T>>, x: seq<T>, sep: seq<T>)
    requires |parts| >= 1
    ensures Join(parts + [x], sep) == Join(parts, sep) + sep + x
    decreases |parts|
  {
    if |parts| == 1 {
      assert parts + [x] == [parts[0], x];
      assert [parts[0], x][1..] == [x];
    } else {
      JoinSnoc(parts[1..], x, sep);
      assert (parts + [x])[1..] == parts[1..] + [x];
    }
  }

  /** Joining with a one-element separator that occurs in no piece and
      splitting again gives the pieces back. */
  lemma {:induction false} SplitJoin<T>(parts: seq<seq<T>>, d: T)
    requires |parts| >= 1
    requires forall k :: 0 <= k < |parts| ==> d !in parts[k]
    ensures Split(Join(parts, [d]), [d]) == parts
    decreases |parts|
  {
    var p := parts[0];
    if |parts| == 1 {
      IndexCorrect(p, [d]);
      if Index(p, [d]).Some? {
        MatchAtSingle(p, d, Index(p, [d]).value);
        assert false;
      }
    } else {
      var rest := Join(parts[1..], [d]);
      var s := p + [d] + rest;
      MatchAtSingle(s, d, |p|);
      forall j: nat | j < |p| ensures !MatchAt(s, [d], j) {
        MatchAtSingle(s, d, j);
      }
      IndexIsLeftmost(s, [d], |p|);
      assert s[..|p|] == p;
      assert s[|p| + 1..] == rest;
      SplitJoin(parts[1..], d);
      assert parts == [p] + parts[1..];
    }
  }
}
