/** Splitting text on a separator, as Rust's `str::split` does. */
module Text {
  /** The pieces between separators; there is always at least one. */
  function Split(s: string, sep: char): (parts: seq<string>)
    ensures parts != []
    ensures forall i :: 0 <= i < |parts| ==> sep !in parts[i]
  {
    if s == [] then [[]]
    else
      var rest := Split(s[1..], sep);
      if s[0] == sep then [[]] + rest else [[s[0]] + rest[0]] + rest[1..]
  }

  lemma {:induction false} SplitWithout(s: string, sep: char)
    requires sep !in s
    ensures Split(s, sep) == [s]
  {
    if s != [] {
      SplitWithout(s[1..], sep);
      assert s == [s[0]] + s[1..];
    }
  }

  lemma {:induction false} SplitAt(head: string, sep: char, tail: string)
    requires sep !in head
    ensures Split(head + [sep] + tail, sep) == [head] + Split(tail, sep)
  {
    var s := head + [sep] + tail;
    if head == [] {
      assert s[1..] == tail;
    } else {
      assert s[1..] == head[1..] + [sep] + tail;
      SplitAt(head[1..], sep, tail);
      assert head == [head[0]] + head[1..];
    }
  }

  /** Where the first separator is, if there is one. */
  lemma {:induction false} SplitHead(s: string, sep: char) returns (i: nat)
    requires |Split(s, sep)| > 1
    ensures i < |s| && s[i] == sep && s[..i] == Split(s, sep)[0] && Split(s[i + 1..], sep) == Split(s, sep)[1..]
  {
    if s[0] == sep {
      i := 0;
    } else {
      var below := SplitHead(s[1..], sep);
      i := below + 1;
      assert s[1..][below + 1..] == s[i + 1..];
      assert s[..i] == [s[0]] + s[1..][..below];
    }
  }

  lemma {:induction false} SplitWithoutIs(s: string, sep: char)
    requires |Split(s, sep)| == 1
    ensures Split(s, sep) == [s]
  {
    if s != [] {
      SplitWithoutIs(s[1..], sep);
      assert s == [s[0]] + s[1..];
    }
  }
}
