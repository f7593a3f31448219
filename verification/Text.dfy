/** strings.Split, as the Go standard library defines it: cut at the leftmost occurrences that do not overlap. */
module Text {
  import opened Prelude

  predicate OccursAt(s: string, sep: string, i: nat) {
    i + |sep| <= |s| && s[i..i + |sep|] == sep
  }

  ghost predicate Contains(s: string, sep: string) {
    exists i: nat :: OccursAt(s, sep, i)
  }

  /** The first occurrence of sep in s at or after position i. */
  function IndexFrom(s: string, sep: string, i: nat): (k: Option<nat>)
    requires i <= |s|
    ensures k.Some? ==> i <= k.value && OccursAt(s, sep, k.value) && forall j: nat | i <= j < k.value :: !OccursAt(s, sep, j)
    ensures k.None? ==> forall j: nat | i <= j :: !OccursAt(s, sep, j)
    decreases |s| - i
  {
    if OccursAt(s, sep, i) then Some(i)
    else if i == |s| then None
    else IndexFrom(s, sep, i + 1)
  }

  function Split(s: string, sep: string): (parts: seq<string>)
    requires sep != ""
    ensures parts != []
    decreases |s|
  {
    var k := IndexFrom(s, sep, 0);
    if k.None? then [s] else [s[..k.value]] + Split(s[k.value + |sep|..], sep)
  }

  /** What comes before the first separator is the first part, and the rest is split on its own. */
  lemma SplitFirst(head: string, sep: string, rest: string)
    requires sep != ""
    requires forall j: nat | j < |head| :: !OccursAt(head + sep + rest, sep, j)
    ensures Split(head + sep + rest, sep) == [head] + Split(rest, sep)
  {
    var s := head + sep + rest;
    assert OccursAt(s, sep, |head|);
    assert s[..|head|] == head && s[|head| + |sep|..] == rest;
  }

  lemma OccursChar(s: string, c: char, i: nat)
    ensures OccursAt(s, [c], i) <==> i < |s| && s[i] == c
  {
    if i < |s| {
      assert s[i..i + 1] == [s[i]];
    }
  }

  /** With a one-character separator, a head without that character is cut off. */
  lemma SplitFirstChar(head: string, c: char, rest: string)
    requires c !in head
    ensures Split(head + [c] + rest, [c]) == [head] + Split(rest, [c])
  {
    forall j: nat | j < |head| ensures !OccursAt(head + [c] + rest, [c], j) {
      OccursChar(head + [c] + rest, c, j);
    }
    SplitFirst(head, [c], rest);
  }

  /** A text is one part exactly when the separator character does not occur in it. */
  lemma SplitOnePart(s: string, c: char)
    ensures Split(s, [c]) == [s] <==> c !in s
    ensures |Split(s, [c])| == 1 <==> c !in s
  {
    if c in s {
      var i :| 0 <= i < |s| && s[i] == c;
      assert OccursAt(s, [c], i);
    } else {
      forall j: nat ensures !OccursAt(s, [c], j) {
        OccursChar(s, c, j);
      }
    }
  }

  /** The character's first occurrence, as a cut. */
  lemma CutAtFirst(s: string, c: char) returns (head: string, rest: string)
    requires c in s
    ensures s == head + [c] + rest && c !in head && |rest| < |s|
  {
    if s[0] == c {
      head, rest := [], s[1..];
    } else {
      head, rest := CutAtFirst(s[1..], c);
      head := [s[0]] + head;
    }
  }

  /** There is one part more than occurrences of the separator character. */
  lemma {:induction false} SplitCounts(s: string, c: char)
    ensures |Split(s, [c])| == 1 + multiset(s)[c]
    decreases |s|
  {
    if c in s {
      var head, rest := CutAtFirst(s, c);
      SplitFirstChar(head, c, rest);
      SplitCounts(rest, c);
      assert multiset(s) == multiset(head) + multiset([c]) + multiset(rest);
      assert multiset(head)[c] == 0;
    } else {
      SplitOnePart(s, c);
    }
  }
}
