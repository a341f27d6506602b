/** Small building blocks shared by the server and the web client models. */
module Common {

  /** A value that may be absent: a missing map key, an unparsable input, JavaScript `undefined`. */
  datatype Option<T> = None | Some(value: T)

  /** Drops the leading characters of `s` that occur in `cut`. */
  function TrimLeft(s: string, cut: string): (r: string)
    ensures |r| <= |s| && r == s[|s| - |r|..]
    ensures forall i :: 0 <= i < |s| - |r| ==> s[i] in cut
    ensures r == [] || r[0] !in cut
  {
    if s != [] && s[0] in cut then TrimLeft(s[1..], cut) else s
  }

  /** Drops the trailing characters of `s` that occur in `cut`. */
  function TrimRight(s: string, cut: string): (r: string)
    ensures |r| <= |s| && r == s[..|r|]
    ensures forall i :: |r| <= i < |s| ==> s[i] in cut
    ensures r == [] || r[|r| - 1] !in cut
  {
    if s != [] && s[|s| - 1] in cut then TrimRight(s[..|s| - 1], cut) else s
  }

  /** `r` is what is left of `s` once the characters of `cut` are removed from both ends:
      a contiguous middle part of `s` that neither starts nor ends with a character of `cut`,
      everything removed around it being in `cut`. */
  predicate TrimmedMiddle(s: string, cut: string, r: string)
  {
    |r| <= |s| &&
    (r == [] || (r[0] !in cut && r[|r| - 1] !in cut)) &&
    var lead := |s| - |TrimLeft(s, cut)|;
    lead + |r| <= |s| && r == s[lead..lead + |r|] &&
    (forall i :: 0 <= i < lead ==> s[i] in cut) &&
    (forall i :: lead + |r| <= i < |s| ==> s[i] in cut)
  }

  /** Both ends trimmed. */
  function TrimBoth(s: string, cut: string): (r: string)
    ensures TrimmedMiddle(s, cut, r)
  {
    var left := TrimLeft(s, cut);
    var r := TrimRight(left, cut);
    MiddleOf(s, left, r, cut);
    r
  }

  /** A prefix `r` of a suffix `left` of `s` sits at offset `|s| - |left|` of `s`, and what
      follows it in `s` is what follows it in `left`. */
  lemma MiddleOf(s: string, left: string, r: string, cut: string)
    requires |left| <= |s| && left == s[|s| - |left|..]
    requires |r| <= |left| && r == left[..|r|]
    requires forall i :: |r| <= i < |left| ==> left[i] in cut
    ensures var lead := |s| - |left|;
            lead + |r| <= |s| && r == s[lead..lead + |r|] &&
            (forall i :: lead + |r| <= i < |s| ==> s[i] in cut)
  {
    var lead := |s| - |left|;
    forall i | lead + |r| <= i < |s|
      ensures s[i] in cut
    {
      assert s[i] == left[i - lead];
    }
  }

  /** Whether every character of `s` is in `cut`. */
  predicate AllIn(s: string, cut: string)
  {
    forall i :: 0 <= i < |s| ==> s[i] in cut
  }

  lemma {:induction false} TrimLeftKeeps(s: string, cut: string)
    requires s != [] && s[0] !in cut
    ensures TrimLeft(s, cut) == s
  {
  }

  /** A string with no cut character at either end is left as it is. */
  lemma TrimBothKeeps(s: string, cut: string)
    requires s != [] && s[0] !in cut && s[|s| - 1] !in cut
    ensures TrimBoth(s, cut) == s
  {
    TrimLeftKeeps(s, cut);
  }

  /** With nothing to cut from, or nothing to cut, trimming changes nothing. */
  lemma TrimBothNothingToCut(s: string, cut: string)
    requires s == [] || cut == []
    ensures TrimLeft(s, cut) == s && TrimBoth(s, cut) == s
  {
  }

  /** A string made only of cut characters trims to the empty string. */
  lemma {:induction false} TrimLeftAllCut(s: string, cut: string)
    requires AllIn(s, cut)
    ensures TrimLeft(s, cut) == []
  {
    if s != [] {
      TrimLeftAllCut(s[1..], cut);
    }
  }

  /** Trimming a string padded with cut characters on both sides recovers the middle, when
      the middle starts and ends outside the cut set. */
  lemma {:induction false} TrimOfPadded(pre: string, mid: string, post: string, cut: string)
    requires AllIn(pre, cut) && AllIn(post, cut)
    requires mid != [] && mid[0] !in cut && mid[|mid| - 1] !in cut
    ensures TrimBoth(pre + mid + post, cut) == mid
  {
    PaddedLeft(pre, mid + post, cut);
    assert pre + mid + post == pre + (mid + post);
    PaddedRight(mid, post, cut);
  }

  lemma {:induction false} PaddedLeft(pre: string, rest: string, cut: string)
    requires AllIn(pre, cut) && rest != [] && rest[0] !in cut
    ensures TrimLeft(pre + rest, cut) == rest
  {
    if pre == [] {
      assert pre + rest == rest;
      TrimLeftKeeps(rest, cut);
    } else {
      assert (pre + rest)[1..] == pre[1..] + rest;
      PaddedLeft(pre[1..], rest, cut);
    }
  }

  lemma {:induction false} PaddedRight(mid: string, post: string, cut: string)
    requires AllIn(post, cut) && mid != [] && mid[|mid| - 1] !in cut
    ensures TrimRight(mid + post, cut) == mid
  {
    if post == [] {
      assert mid + post == mid;
    } else {
      assert (mid + post)[..|mid + post| - 1] == mid + post[..|post| - 1];
      PaddedRight(mid, post[..|post| - 1], cut);
    }
  }
}
