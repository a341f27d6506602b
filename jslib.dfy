/** The JavaScript built-ins the web client relies on: `String.prototype.trim` and
    `Array.prototype.splice`. */
module JsLib {
  import opened Common

  /** The WhiteSpace and LineTerminator code points that `trim` removes. */
  const JsWhitespace: string := "\U{9}\U{A}\U{B}\U{C}\U{D}\U{20}\U{A0}\U{1680}\U{2000}\U{2001}\U{2002}\U{2003}\U{2004}\U{2005}\U{2006}\U{2007}\U{2008}\U{2009}\U{200A}\U{2028}\U{2029}\U{202F}\U{205F}\U{3000}\U{FEFF}"

  /** `s.trim()`. */
  function Trim(s: string): (r: string)
    ensures TrimmedMiddle(s, JsWhitespace, r)
  {
    TrimBoth(s, JsWhitespace)
  }

  /** A string of white space only trims to the empty string. */
  lemma TrimBlank(s: string)
    requires AllIn(s, JsWhitespace)
    ensures Trim(s) == ""
  {
    TrimLeftAllCut(s, JsWhitespace);
  }

  /** Where `splice(start, ...)` starts: a negative start counts from the end, and the result
      is clamped to the array. */
  function SpliceStart(len: nat, start: int): (k: nat)
    ensures k <= len
    ensures 0 <= start <= len ==> k == start
    ensures start < 0 && len + start >= 0 ==> k == len + start
    ensures start > len ==> k == len
    ensures len + start < 0 ==> k == 0
  {
    if start < 0 then (if len + start < 0 then 0 else len + start)
    else if start > len then len
    else start
  }

  /** The array after `a.splice(start, deleteCount, item)`: at most `deleteCount` elements from
      the start position are removed and `item` takes their place. */
  function Splice<T>(a: seq<T>, start: int, deleteCount: int, item: T): (r: seq<T>)
    ensures var k := SpliceStart(|a|, start);
            var n := if deleteCount < 0 then 0 else if deleteCount > |a| - k then |a| - k else deleteCount;
            |r| == |a| - n + 1 && r[..k] == a[..k] && r[k] == item && r[k + 1..] == a[k + n..]
  {
    var k := SpliceStart(|a|, start);
    var n := if deleteCount < 0 then 0 else if deleteCount > |a| - k then |a| - k else deleteCount;
    a[..k] + [item] + a[k + n..]
  }

  /** Replacing one element at a valid index is an in-place update. */
  lemma SpliceOneAt<T>(a: seq<T>, k: int, item: T)
    requires 0 <= k < |a|
    ensures Splice(a, k, 1, item) == a[k := item]
  {
  }

  /** A start of -1 on a non-empty array replaces the last element. */
  lemma SpliceOneAtMinusOne<T>(a: seq<T>, item: T)
    requires a != []
    ensures Splice(a, -1, 1, item) == a[|a| - 1 := item]
  {
  }

  /** On an empty array nothing can be removed: the item is inserted. */
  lemma SpliceOneEmpty<T>(start: int, item: T)
    ensures Splice([], start, 1, item) == [item]
  {
  }
}
