/**
 * The part of ECMAScript's `String.prototype.split` that the guard relies on:
 * splitting on a one-character separator. The result keeps empty pieces
 * (`"a  b".split(' ')` has three fields) and is never empty (`"".split(' ')` is `[""]`).
 */
module JsString {

  /** `s.split(sep)`: the maximal runs of `s` between occurrences of `sep`. */
  function Split(s: string, sep: char): (fields: seq<string>)
    ensures |fields| >= 1
    ensures forall i :: 0 <= i < |fields| ==> sep !in fields[i]
    decreases |s|
  {
    if s == [] then [""]
    else
      var rest := Split(s[1..], sep);
      if s[0] == sep then [""] + rest
      else [[s[0]] + rest[0]] + rest[1..]
  }

  /** `fields.join(sep)`: the inverse of Split. */
  function Join(fields: seq<string>, sep: char): string
    requires |fields| >= 1
  {
    if |fields| == 1 then fields[0]
    else fields[0] + [sep] + Join(fields[1..], sep)
  }

  /** The longest prefix of `s` that does not contain `sep`. */
  function FirstField(s: string, sep: char): (f: string)
    ensures f <= s
    ensures sep !in f
    ensures |f| == |s| || s[|f|] == sep
  {
    if s == [] || s[0] == sep then "" else [s[0]] + FirstField(s[1..], sep)
  }

  /** FirstField is determined by its contract: a sep-free prefix that ends at a separator or at the end. */
  lemma {:induction false} FirstFieldOf(x: string, rest: string, sep: char)
    requires sep !in x
    requires rest == [] || rest[0] == sep
    ensures FirstField(x + rest, sep) == x
  {
    if x != [] {
      assert (x + rest)[1..] == x[1..] + rest;
      FirstFieldOf(x[1..], rest, sep);
    }
  }

  /** Split peels off the first field and continues after the separator that ends it. */
  lemma {:induction false} SplitHead(s: string, sep: char)
    ensures var f := FirstField(s, sep);
      Split(s, sep) == if |f| == |s| then [s] else [f] + Split(s[|f| + 1..], sep)
  {
    if s != [] && s[0] != sep {
      SplitHead(s[1..], sep);
      var f' := FirstField(s[1..], sep);
      var rest := Split(s[1..], sep);
      if |f'| < |s[1..]| {
        var after := Split(s[|f'| + 2..], sep);
        assert s[1..][|f'| + 1..] == s[|f'| + 2..];
        assert rest == [f'] + after;
        assert rest[1..] == after;
      } else {
        assert rest == [s[1..]];
        assert [s[0]] + s[1..] == s;
      }
    }
  }

  /** Joining the fields of a split gives back the original string. */
  lemma {:induction false} JoinSplit(s: string, sep: char)
    ensures Join(Split(s, sep), sep) == s
    decreases |s|
  {
    SplitHead(s, sep);
    var f := FirstField(s, sep);
    if |f| < |s| {
      var tail := s[|f| + 1..];
      JoinSplit(tail, sep);
      assert ([f] + Split(tail, sep))[1..] == Split(tail, sep);
      assert s == f + [sep] + tail;
    }
  }

  /** Splitting a join of separator-free fields gives back exactly those fields. */
  lemma {:induction false} SplitJoin(fields: seq<string>, sep: char)
    requires |fields| >= 1
    requires forall i :: 0 <= i < |fields| ==> sep !in fields[i]
    ensures Split(Join(fields, sep), sep) == fields
  {
    var x := fields[0];
    if |fields| == 1 {
      FirstFieldOf(x, [], sep);
      assert x + [] == x;
      SplitHead(x, sep);
    } else {
      var tail := Join(fields[1..], sep);
      FirstFieldOf(x, [sep] + tail, sep);
      assert x + [sep] + tail == x + ([sep] + tail);
      SplitHead(x + [sep] + tail, sep);
      assert (x + [sep] + tail)[|x| + 1..] == tail;
      SplitJoin(fields[1..], sep);
      assert fields == [x] + fields[1..];
    }
  }
}
