/**
 * The string helper the controller relies on: `string.Join` with a separator,
 * and its inverse for the "; " separator used in validation details.
 */
module Text {

  /** The separator the controller puts between validation messages. */
  const DetailsSeparator := "; "

  /** .NET `string.Join(sep, parts)`: the parts in order, separated by `sep`. */
  function Join(parts: seq<string>, sep: string): (r: string)
    ensures |parts| == 0 ==> r == ""
    ensures |parts| == 1 ==> r == parts[0]
    ensures |parts| > 0 ==> parts[0] <= r
  {
    if |parts| == 0 then ""
    else if |parts| == 1 then parts[0]
    else parts[0] + sep + Join(parts[1..], sep)
  }

  /** `s.Contains(t)`: `t` occurs in `s` at some position. */
  predicate Contains(s: string, t: string) {
    exists p :: 0 <= p <= |s| && t <= s[p..]
  }

  /** Position of the first `c` in `s`, or `|s|` when there is none. */
  function IndexOf(s: string, c: char): (i: nat)
    ensures i <= |s|
    ensures i < |s| ==> s[i] == c
    ensures forall k :: 0 <= k < i ==> s[k] != c
  {
    if |s| == 0 then 0
    else if s[0] == c then 0
    else 1 + IndexOf(s[1..], c)
  }

  /**
   * Cuts a details string back into messages: at every ';', dropping the
   * one character that follows it (the space of "; ").
   */
  function SplitDetails(s: string): (parts: seq<string>)
    ensures |parts| >= 1
    ensures ';' !in s ==> parts == [s]
    decreases |s|
  {
    var i := IndexOf(s, ';');
    if i == |s| then [s]
    else [s[..i]] + SplitDetails(s[if i + 2 <= |s| then i + 2 else |s|..])
  }

  /** `IndexOf` finds the first `c`: a `c` at `p` with none before it is what it returns. */
  lemma IndexOfFirst(s: string, c: char, p: nat)
    requires p < |s| && s[p] == c
    requires forall k :: 0 <= k < p ==> s[k] != c
    ensures IndexOf(s, c) == p
  {
  }

  /**
   * Joining messages that contain no ';' with "; " loses nothing: splitting
   * the joined string gives back the same messages in the same order.
   */
  lemma {:induction false} SplitJoin(parts: seq<string>)
    requires |parts| > 0
    requires forall k :: 0 <= k < |parts| ==> ';' !in parts[k]
    ensures SplitDetails(Join(parts, DetailsSeparator)) == parts
  {
    if |parts| > 1 {
      var head := parts[0];
      var rest := Join(parts[1..], DetailsSeparator);
      var s := Join(parts, DetailsSeparator);
      assert s == head + DetailsSeparator + rest;
      assert s[|head|] == ';';
      forall k | 0 <= k < |head| ensures s[k] != ';' {
        assert s[k] == head[k];
      }
      IndexOfFirst(s, ';', |head|);
      assert s[..|head|] == head;
      assert s[|head| + 2..] == rest;
      SplitJoin(parts[1..]);
      assert SplitDetails(s) == [head] + SplitDetails(rest);
    }
  }
}
