/** Python's argument-less `str.split()`: the string is cut at runs of
    whitespace, and leading and trailing whitespace produce no empty fields. */
module TextFields {

  /** The characters Python's `str.isspace` accepts, which are exactly the
      separators of `str.split()` without arguments. */
  predicate IsSpace(c: char) {
    || c == ' '
    || ('\t' <= c <= '\r')                   // \t \n \v \f \r
    || ('\U{1C}' <= c <= '\U{1F}')           // file, group, record, unit separators
    || c == '\U{85}' || c == '\U{A0}' || c == '\U{1680}'
    || ('\U{2000}' <= c <= '\U{200A}')
    || c == '\U{2028}' || c == '\U{2029}' || c == '\U{202F}'
    || c == '\U{205F}' || c == '\U{3000}'
  }

  predicate AllSpace(s: string) {
    forall i :: 0 <= i < |s| ==> IsSpace(s[i])
  }

  predicate NoSpace(s: string) {
    forall i :: 0 <= i < |s| ==> !IsSpace(s[i])
  }

  /** A field of a split: non-empty and free of whitespace. */
  predicate IsWord(w: string) {
    |w| > 0 && NoSpace(w)
  }

  /** The fields of `s`, scanning left to right with `word` the
      whitespace-free run read so far: whitespace ends a non-empty run,
      any other character extends it. */
  function SplitFrom(s: string, word: string): (fs: seq<string>)
    requires NoSpace(word)
    ensures forall f <- fs :: IsWord(f)
    decreases |s|
  {
    if |s| == 0 then
      if word == [] then [] else [word]
    else if IsSpace(s[0]) then
      if word == [] then SplitFrom(s[1..], []) else [word] + SplitFrom(s[1..], [])
    else
      SplitFrom(s[1..], word + [s[0]])
  }

  /** The fields of `s`, in order, as `s.split()` returns them. */
  function Fields(s: string): (fs: seq<string>)
    ensures forall f <- fs :: IsWord(f)
  {
    SplitFrom(s, [])
  }

  /** The fields joined by single spaces: `" ".join(fs)`. */
  function Join(fs: seq<string>): (s: string)
  {
    if |fs| == 0 then []
    else if |fs| == 1 then fs[0]
    else fs[0] + (" " + Join(fs[1..]))
  }

  /** Reading whitespace-free characters only extends the current run. */
  lemma {:induction false} SplitFromRun(w: string, rest: string, word: string)
    requires NoSpace(word) && NoSpace(w)
    ensures NoSpace(word + w)
    ensures SplitFrom(w + rest, word) == SplitFrom(rest, word + w)
    decreases |w|
  {
    if |w| > 0 {
      assert (w + rest)[0] == w[0];
      assert (w + rest)[1..] == w[1..] + rest;
      assert word + [w[0]] + w[1..] == word + w;
      SplitFromRun(w[1..], rest, word + [w[0]]);
    } else {
      assert w + rest == rest;
      assert word + w == word;
    }
  }

  /** Leading whitespace never changes the fields. */
  lemma {:induction false} FieldsSkipsLeadingSpace(ws: string, s: string)
    requires AllSpace(ws)
    ensures Fields(ws + s) == Fields(s)
    decreases |ws|
  {
    if |ws| > 0 {
      assert (ws + s)[0] == ws[0];
      assert (ws + s)[1..] == ws[1..] + s;
      FieldsSkipsLeadingSpace(ws[1..], s);
    } else {
      assert ws + s == s;
    }
  }

  /** A string has no fields exactly when it is all whitespace. */
  lemma {:induction false} FieldsEmptyIffAllSpace(s: string)
    ensures Fields(s) == [] <==> AllSpace(s)
    decreases |s|
  {
    if |s| > 0 {
      FieldsEmptyIffAllSpace(s[1..]);
      if IsSpace(s[0]) {
        if AllSpace(s[1..]) {
          forall i | 0 < i < |s| ensures IsSpace(s[i]) {
            assert s[i] == s[1..][i - 1];
          }
        } else {
          var i :| 0 <= i < |s[1..]| && !IsSpace(s[1..][i]);
          assert s[i + 1] == s[1..][i];
        }
      } else {
        assert !IsSpace(s[0]) && [] + [s[0]] == [s[0]];
        assert SplitFrom(s[1..], [s[0]]) != [] by {
          SplitFromRunNonEmpty(s[1..], [s[0]]);
        }
      }
    }
  }

  /** A non-empty run read so far always ends up as a field. */
  lemma {:induction false} SplitFromRunNonEmpty(s: string, word: string)
    requires NoSpace(word) && word != []
    ensures SplitFrom(s, word) != []
    decreases |s|
  {
    if |s| > 0 && !IsSpace(s[0]) {
      SplitFromRunNonEmpty(s[1..], word + [s[0]]);
    }
  }

  /** A word followed by whitespace (or by nothing) is the first field. */
  lemma FieldsOfWordThen(w: string, rest: string)
    requires IsWord(w)
    requires rest == [] || IsSpace(rest[0])
    ensures Fields(w + rest) == [w] + Fields(rest)
  {
    SplitFromRun(w, rest, []);
    assert [] + w == w;
    if rest != [] {
      FieldsSkipsLeadingSpace([rest[0]], rest[1..]);
      assert [rest[0]] + rest[1..] == rest;
    }
  }

  /** A word, a space, then anything: the word comes first, then the
      fields of the rest. */
  lemma FieldsAfterWord(w: string, s: string)
    requires IsWord(w)
    ensures Fields(w + (" " + s)) == [w] + Fields(s)
  {
    FieldsOfWordThen(w, " " + s);
    FieldsSkipsLeadingSpace(" ", s);
  }

  /** A single whitespace-free word splits into one field. */
  lemma OneField(w: string)
    requires IsWord(w)
    ensures Fields(w) == [w]
  {
    assert w + [] == w;
    FieldsOfWordThen(w, []);
  }

  /** Splitting undoes joining: a sequence of whitespace-free, non-empty
      words joined by single spaces splits back into the same words. */
  lemma {:induction false} FieldsOfJoin(fs: seq<string>)
    requires forall f <- fs :: IsWord(f)
    ensures Fields(Join(fs)) == fs
    decreases |fs|
  {
    if |fs| == 1 {
      OneField(fs[0]);
    } else if |fs| > 1 {
      var w, tail := fs[0], fs[1..];
      assert fs == [w] + tail;
      assert w in fs;
      assert forall f <- tail :: f in fs;
      FieldsOfJoin(tail);
      FieldsAfterWord(w, Join(tail));
    }
  }

  /** A header written as `scheme SP token` splits into exactly those two
      fields. */
  lemma TwoFields(scheme: string, token: string)
    requires IsWord(scheme) && IsWord(token)
    ensures Fields(scheme + " " + token) == [scheme, token]
  {
    assert scheme + " " + token == scheme + (" " + token);
    FieldsAfterWord(scheme, token);
    OneField(token);
  }
}
