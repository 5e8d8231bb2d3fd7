/** The string splitting the command-line layer relies on: Go's
    `strings.Split(s, sep)`, `regexp.MustCompile(literal).Split(s, -1)` for a
    regular expression that is a plain literal (the two agree whenever the
    separator is non-empty), and `strings.SplitN(s, sep, 2)` for a one-character
    separator. */
module Strings {

  /** `sep` occurs in `s` starting at index `j`. */
  predicate OccursAt(s: string, sep: string, j: nat) {
    j + |sep| <= |s| && s[j..j + |sep|] == sep
  }

  /** `sep` occurs somewhere in `s`. */
  predicate Contains(s: string, sep: string) {
    exists j: nat :: j <= |s| && OccursAt(s, sep, j)
  }

  /** The pieces glued back together with `sep` between neighbours. */
  function Join(parts: seq<string>, sep: string): string {
    if parts == [] then ""
    else if |parts| == 1 then parts[0]
    else parts[0] + sep + Join(parts[1..], sep)
  }

  /** All pieces of `s` between the leftmost non-overlapping occurrences of
      `sep`, scanning from the left; "" splits into [""]. */
  function Split(s: string, sep: string): (parts: seq<string>)
    requires |sep| > 0
    ensures |parts| >= 1
    decreases |s|
  {
    if |s| < |sep| then [s]
    else if s[..|sep|] == sep then [""] + Split(s[|sep|..], sep)
    else
      var rest := Split(s[1..], sep);
      [[s[0]] + rest[0]] + rest[1..]
  }

  /** Gluing the pieces back together with the separator gives the input. */
  lemma {:induction false} JoinSplit(s: string, sep: string)
    requires |sep| > 0
    ensures Join(Split(s, sep), sep) == s
    decreases |s|
  {
    if |s| < |sep| {
    } else if s[..|sep|] == sep {
      var rest := Split(s[|sep|..], sep);
      JoinSplit(s[|sep|..], sep);
      assert Split(s, sep) == [""] + rest;
      assert Join([""] + rest, sep) == "" + sep + Join(rest, sep) by {
        assert ([""] + rest)[1..] == rest;
      }
      assert s == sep + s[|sep|..];
    } else {
      var rest := Split(s[1..], sep);
      JoinSplit(s[1..], sep);
      JoinExtendFirst(s[0], rest, sep);
      assert s == [s[0]] + s[1..];
    }
  }

  /** Extending the first piece extends the joined string by the same prefix. */
  lemma JoinExtendFirst(c: char, parts: seq<string>, sep: string)
    requires |parts| >= 1
    ensures Join([[c] + parts[0]] + parts[1..], sep) == [c] + Join(parts, sep)
  {
    var extended := [[c] + parts[0]] + parts[1..];
    assert extended[0] == [c] + parts[0];
    if |parts| > 1 {
      assert extended[1..] == parts[1..];
    }
  }

  /** The first piece is a prefix of the joined string. */
  lemma {:induction false} FirstPartIsPrefix(parts: seq<string>, sep: string)
    requires |parts| >= 1
    ensures |parts[0]| <= |Join(parts, sep)|
    ensures Join(parts, sep)[..|parts[0]|] == parts[0]
  {
  }

  /** No piece of a split contains the separator. */
  lemma {:induction false} SplitPartsAvoidSeparator(s: string, sep: string)
    requires |sep| > 0
    ensures forall i :: 0 <= i < |Split(s, sep)| ==> !Contains(Split(s, sep)[i], sep)
    decreases |s|
  {
    var parts := Split(s, sep);
    if |s| < |sep| {
      forall j: nat | j <= |s| ensures !OccursAt(s, sep, j) { }
    } else if s[..|sep|] == sep {
      SplitPartsAvoidSeparator(s[|sep|..], sep);
      var rest := Split(s[|sep|..], sep);
      assert parts == [""] + rest;
      forall i | 0 <= i < |parts| ensures !Contains(parts[i], sep) {
        if i == 0 {
          forall j: nat | j <= 0 ensures !OccursAt(parts[i], sep, j) { }
        } else {
          assert parts[i] == rest[i - 1];
        }
      }
    } else {
      var rest := Split(s[1..], sep);
      SplitPartsAvoidSeparator(s[1..], sep);
      JoinSplit(s[1..], sep);
      FirstPartIsPrefix(rest, sep);
      var head := [s[0]] + rest[0];
      assert parts == [head] + rest[1..];
      assert s[1..][..|rest[0]|] == rest[0];
      assert head == s[..1 + |rest[0]|];
      forall i | 0 <= i < |parts| ensures !Contains(parts[i], sep) {
        if i == 0 {
          forall j: nat | j <= |head| ensures !OccursAt(head, sep, j) {
            if j > 0 {
              if OccursAt(head, sep, j) {
                assert head[j..j + |sep|] == rest[0][j - 1..j - 1 + |sep|];
                assert OccursAt(rest[0], sep, j - 1);
              }
            }
          }
        } else {
          assert parts[i] == rest[i];
        }
      }
    }
  }

  /** An occurrence past the first character is an occurrence in the tail. */
  lemma OccursInTail(s: string, sep: string, j: nat)
    requires 0 < j <= |s|
    ensures OccursAt(s, sep, j) == OccursAt(s[1..], sep, j - 1)
  {
    if j + |sep| <= |s| {
      assert s[1..][j - 1..j - 1 + |sep|] == s[j..j + |sep|];
    }
  }

  /** The split cuts at the leftmost occurrence: when there are several
      pieces, the separator does not occur inside the first one and does occur
      right after it. (`JoinSplit` and `SplitPartsAvoidSeparator` alone fix the
      pieces only for a separator that cannot overlap itself.) */
  lemma {:induction false} SplitLeftmost(s: string, sep: string)
    requires |sep| > 0
    ensures |Split(s, sep)| > 1 ==>
      (forall j :: 0 <= j < |Split(s, sep)[0]| ==> !OccursAt(s, sep, j)) &&
      OccursAt(s, sep, |Split(s, sep)[0]|)
    decreases |s|
  {
    if |s| >= |sep| && s[..|sep|] != sep {
      var rest := Split(s[1..], sep);
      var head := [s[0]] + rest[0];
      assert Split(s, sep) == [head] + rest[1..];
      if |rest| > 1 {
        SplitLeftmost(s[1..], sep);
        forall j | 0 <= j < |head| ensures !OccursAt(s, sep, j) {
          if j > 0 {
            OccursInTail(s, sep, j);
          }
        }
        OccursInTail(s, sep, |head|);
      }
    }
  }

  /** Go's `strings.SplitN(s, [sep], 2)`: [s] when `sep` does not occur,
      otherwise the text before and after the first occurrence. */
  function SplitN2(s: string, sep: char): (up: seq<string>)
    ensures |up| == 1 <==> sep !in s
    ensures |up| == 1 ==> up[0] == s
    ensures |up| == 2 ==> sep !in up[0] && up[0] + [sep] + up[1] == s
    ensures |up| == 1 || |up| == 2
  {
    if s == [] then [s]
    else if s[0] == sep then ["", s[1..]]
    else
      var r := SplitN2(s[1..], sep);
      assert s == [s[0]] + s[1..];
      [[s[0]] + r[0]] + r[1..]
  }

  /** Splitting text made of a separator-free head, the separator and any tail
      gives back exactly that head and tail. */
  lemma {:induction false} SplitN2AtFirst(head: string, tail: string, sep: char)
    requires sep !in head
    ensures SplitN2(head + [sep] + tail, sep) == [head, tail]
  {
    var s := head + [sep] + tail;
    if head != [] {
      assert s[1..] == head[1..] + [sep] + tail;
      SplitN2AtFirst(head[1..], tail, sep);
      assert [head[0]] + head[1..] == head;
    }
  }
}
