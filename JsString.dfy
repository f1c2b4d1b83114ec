/**
 * JavaScript's `String.prototype.split` with a one-character separator.
 * `"a b".split(" ")` is `["a", "b"]`, `"a  b".split(" ")` is `["a", "", "b"]`
 * and `"".split(" ")` is `[""]`: the result always has one field more than the
 * string has separators, and fields may be empty.
 */
module JsString {

  /** The fields of `s` between occurrences of `sep`, in order. */
  function Split(s: string, sep: char): (fields: seq<string>)
    ensures |fields| >= 1
    ensures forall i :: 0 <= i < |fields| ==> sep !in fields[i]
    // the first field is the longest prefix of `s` without a separator
    ensures fields[0] <= s
    ensures |fields[0]| == |s| || s[|fields[0]|] == sep
    decreases |s|
  {
    if |s| == 0 then [""]
    else
      var rest := Split(s[1..], sep);
      if s[0] == sep then [""] + rest
      else [[s[0]] + rest[0]] + rest[1..]
  }

  /** The fields glued back together with `sep` between neighbours: the inverse of Split. */
  function Join(fields: seq<string>, sep: char): (s: string)
    requires |fields| >= 1
    decreases |fields|
  {
    if |fields| == 1 then fields[0] else fields[0] + [sep] + Join(fields[1..], sep)
  }

  /** Splitting loses nothing: joining the fields gives the string back. */
  lemma {:induction false} JoinSplit(s: string, sep: char)
    ensures Join(Split(s, sep), sep) == s
    decreases |s|
  {
    if |s| > 0 {
      var rest := Split(s[1..], sep);
      JoinSplit(s[1..], sep);
      var fields := Split(s, sep);
      if s[0] == sep {
        assert fields[1..] == rest;
      } else if |rest| == 1 {
        assert fields == [[s[0]] + rest[0]];
        assert [s[0]] + s[1..] == s;
      } else {
        assert fields[1..] == rest[1..];
        assert Join(rest, sep) == rest[0] + [sep] + Join(rest[1..], sep);
        assert [s[0]] + s[1..] == s;
      }
    }
  }

  /** A string without a separator is a single field. */
  lemma {:induction false} SplitNoSeparator(s: string, sep: char)
    requires sep !in s
    ensures Split(s, sep) == [s]
    decreases |s|
  {
    if |s| > 0 {
      SplitNoSeparator(s[1..], sep);
      assert [s[0]] + s[1..] == s;
    }
  }

  /** The first separator ends the first field; the rest is split on its own. */
  lemma {:induction false} SplitAtFirstSeparator(p: string, sep: char, q: string)
    requires sep !in p
    ensures Split(p + [sep] + q, sep) == [p] + Split(q, sep)
    decreases |p|
  {
    var s := p + [sep] + q;
    if |p| == 0 {
      assert s[1..] == q;
    } else {
      assert s[1..] == p[1..] + [sep] + q;
      SplitAtFirstSeparator(p[1..], sep, q);
      assert [p[0]] + p[1..] == p;
    }
  }

  /** Fields without separators are recovered exactly by splitting their join. */
  lemma {:induction false} SplitJoin(fields: seq<string>, sep: char)
    requires |fields| >= 1
    requires forall i :: 0 <= i < |fields| ==> sep !in fields[i]
    ensures Split(Join(fields, sep), sep) == fields
    decreases |fields|
  {
    if |fields| == 1 {
      SplitNoSeparator(fields[0], sep);
    } else {
      SplitJoin(fields[1..], sep);
      SplitAtFirstSeparator(fields[0], sep, Join(fields[1..], sep));
    }
  }

  /**
   * When there are at least two fields, the first ends at a separator and the
   * others are the fields of what follows that separator.
   */
  lemma SplitAfterFirstField(s: string, sep: char)
    requires |Split(s, sep)| >= 2
    ensures |Split(s, sep)[0]| < |s| && s[|Split(s, sep)[0]|] == sep
    ensures Split(s[|Split(s, sep)[0]| + 1..], sep) == Split(s, sep)[1..]
  {
    var fields := Split(s, sep);
    JoinSplit(s, sep);
    var q := Join(fields[1..], sep);
    assert s == fields[0] + [sep] + q;
    assert s[|fields[0]| + 1..] == q;
    SplitJoin(fields[1..], sep);
  }

  /** A single field means the string has no separator. */
  lemma SplitSingleField(s: string, sep: char)
    requires |Split(s, sep)| == 1
    ensures Split(s, sep) == [s] && sep !in s
  {
    JoinSplit(s, sep);
  }
}
