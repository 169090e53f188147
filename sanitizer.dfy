/** The response sanitizer of the `/run` handler: the completion with every
    occurrence of the request's input removed, as
    `strings.ReplaceAll(completion, input, "")` does it. Go's `Replace` finds
    the leftmost occurrence, copies what precedes it, skips the occurrence and
    goes on searching after it, so occurrences never overlap and one pass is
    made; when the pattern is empty it equals the (empty) replacement and the
    string comes back unchanged. */
module Sanitizer {
  import opened Text

  /** `s` with the non-overlapping left-to-right occurrences of `pat`
      removed: keep what precedes the leftmost occurrence, drop the
      occurrence, continue after it. */
  function RemoveAll<T(==)>(s: seq<T>, pat: seq<T>): (r: seq<T>)
    ensures |r| <= |s|
    decreases |s|
  {
    if pat == [] then s
    else match Index(s, pat)
      case None => s
      case Some(i) => s[..i] + RemoveAll(s[i + |pat|..], pat)
  }

  /** The number of occurrences of `pat` a left-to-right scan for
      non-overlapping matches finds in `s` (none for an empty pattern). */
  function Count<T(==)>(s: seq<T>, pat: seq<T>): nat
    decreases |s|
  {
    if pat == [] then 0
    else match Index(s, pat)
      case None => 0
      case Some(i) => 1 + Count(s[i + |pat|..], pat)
  }

  /** Each removed occurrence shortens the completion by the input's length,
      and nothing else is removed. */
  lemma {:induction false} RemovedLength<T>(s: seq<T>, pat: seq<T>)
    ensures |RemoveAll(s, pat)| == |s| - Count(s, pat) * |pat|
    decreases |s|
  {
    if pat != [] {
      match Index(s, pat)
      case None =>
      case Some(i) =>
        var rest := s[i + |pat|..];
        RemovedLength(rest, pat);
        var n, m := Count(rest, pat), |pat|;
        assert Count(s, pat) == 1 + n;
        assert |RemoveAll(s, pat)| == i + |RemoveAll(rest, pat)|;
        assert |rest| == |s| - i - m;
        OneMoreTimes(n, m);
    }
  }

  /** One more copy of `m`. */
  lemma OneMoreTimes(n: int, m: int)
    ensures (1 + n) * m == m + n * m
  {
  }

  /** A non-empty pattern is counted at least once exactly when it occurs. */
  lemma CountPositiveIffOccurs<T>(s: seq<T>, pat: seq<T>)
    requires pat != []
    ensures Count(s, pat) > 0 <==> Occurs(pat, s)
  {
    IndexCorrect(s, pat);
    match Index(s, pat)
    case None =>
    case Some(i) =>
      assert MatchAt(s, pat, i);
  }

  /** The completion comes back unchanged exactly when the input is empty
      or does not occur in it. */
  lemma UnchangedIffAbsent<T>(s: seq<T>, pat: seq<T>)
    ensures RemoveAll(s, pat) == s <==> pat == [] || !Occurs(pat, s)
  {
    if pat != [] {
      RemovedLength(s, pat);
      CountPositiveIffOccurs(s, pat);
      IndexCorrect(s, pat);
    }
  }

  /** An echo of the input at the head of the completion is dropped, and the
      rest is sanitized as if the echo had not been there. */
  lemma LeadingEchoDropped<T>(pat: seq<T>, rest: seq<T>)
    ensures RemoveAll(pat + rest, pat) == RemoveAll(rest, pat)
  {
    if pat == [] {
      assert pat + rest == rest;
    } else {
      IndexIsLeftmost(pat + rest, pat, 0);
      assert (pat + rest)[..|pat|] == pat;
      assert (pat + rest)[|pat|..] == rest;
    }
  }

  /** When the generated text after the echo does not repeat the input, the
      sanitized completion is exactly that text. */
  lemma EchoOnlyStripped<T>(pat: seq<T>, rest: seq<T>)
    requires pat != [] && !Occurs(pat, rest)
    ensures RemoveAll(pat + rest, pat) == rest
  {
    LeadingEchoDropped(pat, rest);
    UnchangedIffAbsent(rest, pat);
  }

  /** The completion "Xhello" for the input "X" is sanitized to "hello". */
  lemma EchoExample()
    ensures RemoveAll("Xhello", "X") == "hello"
  {
    assert "Xhello" == "X" + "hello";
    forall j: nat | j <= |"hello"| ensures !MatchAt("hello", "X", j) {
      MatchAtSingle("hello", 'X', j);
    }
    EchoOnlyStripped("X", "hello");
  }

  /** One pass can leave an occurrence behind: removing "ab" from "aabb"
      joins an "a" and a "b" into a new "ab". */
  lemma SinglePassMayLeaveMatch()
    ensures RemoveAll("aabb", "ab") == "ab"
    ensures Occurs("ab", RemoveAll("aabb", "ab"))
  {
    var s: string := "aabb";
    assert MatchAt(s, "ab", 1) by { assert s[1..3] == "ab"; }
    assert !MatchAt(s, "ab", 0) by { assert s[0..2] == "aa"; }
    IndexIsLeftmost(s, "ab", 1);
    assert s[3..] == "b" && s[..1] == "a";
    assert RemoveAll("b", "ab") == "b";
    assert MatchAt("ab", "ab", 0);
  }

  /** Removal is splitting at the occurrences and joining the pieces with
      nothing between them. */
  lemma {:induction false} RemoveIsSplitJoin<T>(s: seq<T>, pat: seq<T>)
    requires pat != []
    ensures RemoveAll(s, pat) == Join(Split(s, pat), [])
    decreases |s|
  {
    match Index(s, pat)
    case None =>
      assert Split(s, pat) == [s];
    case Some(i) =>
      var rest := s[i + |pat|..];
      var parts := Split(rest, pat);
      RemoveIsSplitJoin(rest, pat);
      JoinCons(s[..i], parts, []);
      var pre, joined := s[..i], Join(parts, []);
      assert pre + [] == pre;
      assert pre + [] + joined == pre + joined;
  }
}
