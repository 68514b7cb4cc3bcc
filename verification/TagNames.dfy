/** `snake` and `camel`: the two spellings of an element the mapping table has no row for. */
module TagNames {
  import opened Text

  predicate IsUpper(c: char) {
    'A' <= c <= 'Z'
  }

  predicate IsLower(c: char) {
    'a' <= c <= 'z'
  }

  function ToLower(c: char): char {
    if IsUpper(c) then c - 'A' + 'a' else c
  }

  function ToUpper(c: char): char {
    if IsLower(c) then c - 'a' + 'A' else c
  }

  /** The part of `snake` after the first character: an upper-case letter opens a new word. */
  function SnakeRest(s: string): string {
    if s == [] then []
    else (if IsUpper(s[0]) then ['_', ToLower(s[0])] else [s[0]]) + SnakeRest(s[1..])
  }

  function Snake(tag: string): string {
    if tag == [] then [] else [ToLower(tag[0])] + SnakeRest(tag[1..])
  }

  method SnakeLoop(tag: string) returns (out: string)
    ensures out == Snake(tag)
  {
    out := "";
    for i := 0 to |tag|
      invariant i == 0 ==> out == ""
      invariant i > 0 ==> out + SnakeRest(tag[i..]) == Snake(tag)
    {
      assert tag[i..][1..] == tag[i + 1..];
      if IsUpper(tag[i]) {
        if i != 0 {
          assert out + (['_', ToLower(tag[i])] + SnakeRest(tag[i + 1..]))
              == (out + "_") + [ToLower(tag[i])] + SnakeRest(tag[i + 1..]);
          out := out + "_";
        }
        out := out + [ToLower(tag[i])];
      } else {
        assert out + ([tag[i]] + SnakeRest(tag[i + 1..])) == (out + [tag[i]]) + SnakeRest(tag[i + 1..]);
        out := out + [tag[i]];
      }
    }
    assert tag[|tag|..] == [];
  }

  function Capitalised(word: string): string {
    if word == [] then [] else [ToUpper(word[0])] + word[1..]
  }

  function CapitalisedAll(words: seq<string>): string {
    if words == [] then [] else Capitalised(words[0]) + CapitalisedAll(words[1..])
  }

  function Camel(kind: string): string {
    CapitalisedAll(Split(kind, '_'))
  }

  // ----- The character-by-character reading of `camel` the proofs run on -----

  ghost function CamelFrom(s: string, wordStart: bool): string {
    if s == [] then []
    else if s[0] == '_' then CamelFrom(s[1..], true)
    else [if wordStart then ToUpper(s[0]) else s[0]] + CamelFrom(s[1..], false)
  }

  lemma {:induction false} CamelByCharacter(s: string)
    ensures CamelFrom(s, true) == CapitalisedAll(Split(s, '_'))
    ensures CamelFrom(s, false) == Split(s, '_')[0] + CapitalisedAll(Split(s, '_')[1..])
  {
    if s != [] {
      CamelByCharacter(s[1..]);
      var rest := Split(s[1..], '_');
      var words := Split(s, '_');
      if s[0] == '_' {
        assert words == [[]] + rest && words[1..] == rest;
      } else {
        assert words[0] == [s[0]] + rest[0] && words[1..] == rest[1..];
      }
    }
  }

  lemma {:induction false} CamelDropsUnderscores(s: string, wordStart: bool)
    ensures '_' !in CamelFrom(s, wordStart)
  {
    if s != [] {
      CamelDropsUnderscores(s[1..], true);
      CamelDropsUnderscores(s[1..], false);
    }
  }

  /** Words of a kind that `camel` keeps apart: no capitals, and every `_` sits between two
      characters of which the second is a lower-case letter. */
  ghost predicate SnakeCase(kind: string) {
    && (forall i :: 0 <= i < |kind| ==> !IsUpper(kind[i]))
    && (forall i :: 0 <= i < |kind| && kind[i] == '_' ==> 0 < i && i + 1 < |kind| && IsLower(kind[i + 1]))
  }

  /** Snake case read from left to right. */
  ghost predicate WordsFrom(s: string, wordStart: bool) {
    if s == [] then !wordStart
    else (wordStart ==> IsLower(s[0])) && !IsUpper(s[0]) && WordsFrom(s[1..], s[0] == '_')
  }

  lemma {:induction false} WordsAreSnakeCase(s: string)
    ensures WordsFrom(s, false) <==> SnakeTail(s)
  {
    if s != [] {
      var r := s[1..];
      WordsAreSnakeCase(r);
      assert WordsFrom(r, true) <==> r != [] && IsLower(r[0]) && WordsFrom(r, false);
      if SnakeTail(s) {
        forall i | 0 <= i < |r| ensures r[i] == s[i + 1] {}
        assert SnakeTail(r);
      } else if SnakeTail(r) {
        assert !IsUpper(s[0]) ==> s[0] == '_' && !(1 < |s| && IsLower(s[1])) by {
          forall i | 0 < i < |s| ensures s[i] == r[i - 1] {}
        }
      }
    }
  }

  ghost predicate SnakeTail(s: string) {
    && (forall i :: 0 <= i < |s| ==> !IsUpper(s[i]))
    && (forall i :: 0 <= i < |s| && s[i] == '_' ==> i + 1 < |s| && IsLower(s[i + 1]))
  }

  lemma {:induction false} SnakeRestOfCamel(s: string)
    ensures SnakeRest(CamelFrom(s, false)) == s <==> WordsFrom(s, false)
    ensures SnakeRest(CamelFrom(s, true)) == "_" + s <==> WordsFrom(s, true)
  {
    if s != [] {
      SnakeRestOfCamel(s[1..]);
      CamelDropsUnderscores(s, true);
      assert s == [s[0]] + s[1..];
      ContinuedWord(s);
      OpeningWord(s);
    }
  }

  lemma ContinuedWord(s: string)
    requires s != []
    requires SnakeRest(CamelFrom(s[1..], false)) == s[1..] <==> WordsFrom(s[1..], false)
    requires SnakeRest(CamelFrom(s[1..], true)) == "_" + s[1..] <==> WordsFrom(s[1..], true)
    ensures SnakeRest(CamelFrom(s, false)) == s <==> WordsFrom(s, false)
  {
    assert s == [s[0]] + s[1..];
    if s[0] != '_' {
      var image := CamelFrom(s, false);
      assert image[1..] == CamelFrom(s[1..], false);
      if !IsUpper(s[0]) {
        assert SnakeRest(image)[1..] == SnakeRest(image[1..]);
      }
    }
  }

  lemma OpeningWord(s: string)
    requires s != []
    requires SnakeRest(CamelFrom(s[1..], false)) == s[1..] <==> WordsFrom(s[1..], false)
    ensures SnakeRest(CamelFrom(s, true)) == "_" + s <==> WordsFrom(s, true)
  {
    if s[0] == '_' {
      CamelDropsUnderscores(s, true);
      NoDoubleUnderscore(CamelFrom(s, true));
      assert ("_" + s)[1] == '_';
    } else {
      OpeningLetter(s[0], s[1..], CamelFrom(s[1..], false));
      assert "_" + s == "_" + [s[0]] + s[1..];
      assert WordsFrom(s, true) <==> IsLower(s[0]) && WordsFrom(s[1..], false);
    }
  }

  lemma NoDoubleUnderscore(image: string)
    requires '_' !in image
    ensures |SnakeRest(image)| < 2 || SnakeRest(image)[0] != '_' || SnakeRest(image)[1] != '_'
  {
    if image != [] {
      assert image[0] in image;
    }
  }

  lemma OpeningLetter(c: char, tail: string, image: string)
    requires c != '_'
    ensures SnakeRest([ToUpper(c)] + image) == "_" + [c] + tail <==> IsLower(c) && SnakeRest(image) == tail
  {
    var text := [ToUpper(c)] + image;
    assert text[1..] == image;
    if IsLower(c) {
      assert SnakeRest(text) == ['_', c] + SnakeRest(image);
      assert SnakeRest(text)[2..] == SnakeRest(image);
      assert ("_" + [c] + tail)[2..] == tail;
    } else {
      assert SnakeRest(text)[0] != '_' || SnakeRest(text)[1] != c;
      assert ("_" + [c] + tail)[..2] == ['_', c];
    }
  }

  /** The kinds whose element name gives them back: exactly those in snake case. */
  lemma SnakeInvertsCamelIff(kind: string)
    ensures Snake(Camel(kind)) == kind <==> SnakeCase(kind)
  {
    CamelByCharacter(kind);
    if kind != [] {
      if kind[0] == '_' {
        CamelDropsUnderscores(kind, true);
        assert Camel(kind) != [] ==> Camel(kind)[0] in Camel(kind);
      } else {
        SnakeRestOfCamel(kind[1..]);
        FirstLetter(kind[0], kind[1..], CamelFrom(kind[1..], false));
        assert kind == [kind[0]] + kind[1..];
        SnakeCaseStep(kind);
      }
    }
  }

  lemma FirstLetter(c: char, tail: string, image: string)
    ensures Snake([ToUpper(c)] + image) == [c] + tail <==> !IsUpper(c) && SnakeRest(image) == tail
  {
    var text := [ToUpper(c)] + image;
    assert text[1..] == image;
    assert Snake(text)[1..] == SnakeRest(image);
    assert ([c] + tail)[1..] == tail;
  }

  lemma SnakeCaseStep(kind: string)
    requires kind != [] && kind[0] != '_'
    ensures SnakeCase(kind) <==> !IsUpper(kind[0]) && WordsFrom(kind[1..], false)
  {
    WordsAreSnakeCase(kind);
  }

  lemma {:induction false} CamelOfSnakeRest(s: string)
    ensures CamelFrom(SnakeRest(s), false) == s <==> '_' !in s
  {
    if s != [] {
      CamelOfSnakeRest(s[1..]);
      var text := SnakeRest(s);
      var image := CamelFrom(text, false);
      CamelDropsUnderscores(text, false);
      assert s == [s[0]] + s[1..];
      if s[0] == '_' {
        assert s[0] in s;
      } else if IsUpper(s[0]) {
        assert text[1..] == [ToLower(s[0])] + SnakeRest(s[1..]);
        assert text[1..][1..] == SnakeRest(s[1..]);
        assert image == [s[0]] + CamelFrom(SnakeRest(s[1..]), false);
        assert image[1..] == CamelFrom(SnakeRest(s[1..]), false);
      } else {
        assert text[1..] == SnakeRest(s[1..]);
        assert image[1..] == CamelFrom(SnakeRest(s[1..]), false);
      }
    }
  }

  /** The element names whose kind gives them back: exactly those that hold no underscore and do not start
      with a lower-case letter. */
  lemma CamelInvertsSnakeIff(tag: string)
    ensures Camel(Snake(tag)) == tag <==> '_' !in tag && (tag == [] || !IsLower(tag[0]))
  {
    if tag != [] {
      CamelByCharacter(Snake(tag));
      CamelOfSnakeRest(tag[1..]);
      var image := Camel(Snake(tag));
      CamelDropsUnderscores(Snake(tag), true);
      assert tag == [tag[0]] + tag[1..];
      assert Snake(tag)[1..] == SnakeRest(tag[1..]);
      if tag[0] == '_' {
        assert tag[0] in tag;
      } else {
        assert image[1..] == CamelFrom(SnakeRest(tag[1..]), false);
      }
    }
  }
}
