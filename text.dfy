/**
 * The review normaliser `Restaurant.clean_text`: lower-case the text, delete
 * every character that is neither a word character nor whitespace, strip both
 * ends, and collapse every run of whitespace into one space.
 *
 * Character classes follow Python's `str` semantics restricted to ASCII:
 * `\w` is `[A-Za-z0-9_]`, and `\s` (as well as `str.strip()`) is the ASCII
 * whitespace of `str.isspace()`: tab, line feed, vertical tab, form feed,
 * carriage return, the four separators 0x1C to 0x1F, and space.
 */
module Text {

  /** A cell of the `Review` column: a string, or any other value (a missing
      cell read as NaN, a number); the model only needs to know it is not a
      string. */
  datatype Value = Str(text: string) | NonStr

  predicate IsUpper(c: char) { 'A' <= c <= 'Z' }

  predicate IsWord(c: char) { 'a' <= c <= 'z' || 'A' <= c <= 'Z' || '0' <= c <= '9' || c == '_' }

  predicate IsSpace(c: char) { c == ' ' || '\t' <= c <= '\r' || '\U{1C}' <= c <= '\U{1F}' }

  /** A character that may appear in cleaned text besides the space. */
  predicate IsLowerWord(c: char) { IsWord(c) && !IsUpper(c) }

  /** `str.lower()` on one ASCII character. */
  function Lower(c: char): (r: char)
    ensures !IsUpper(r)
    ensures IsWord(r) <==> IsWord(c)
    ensures IsSpace(r) <==> IsSpace(c)
    ensures !IsUpper(c) ==> r == c
  {
    if IsUpper(c) then (c as int + 32) as char else c
  }

  /** `str.lower()`. */
  function LowerStr(s: string): (r: string)
    ensures |r| == |s|
  {
    seq(|s|, i requires 0 <= i < |s| => Lower(s[i]))
  }

  /** `re.sub(r'[^\w\s]', '', s)`: keep word and whitespace characters only. */
  function Keep(s: string): string
  {
    if s == [] then []
    else if IsWord(s[0]) || IsSpace(s[0]) then [s[0]] + Keep(s[1..])
    else Keep(s[1..])
  }

  /** `str.lstrip()`: drop leading whitespace. */
  function StripLeft(s: string): string
  {
    if s != [] && IsSpace(s[0]) then StripLeft(s[1..]) else s
  }

  /** `str.rstrip()`: drop trailing whitespace. */
  function StripRight(s: string): string
  {
    if s != [] && IsSpace(s[|s| - 1]) then StripRight(s[..|s| - 1]) else s
  }

  /** `str.strip()`. */
  function Strip(s: string): string
  {
    StripRight(StripLeft(s))
  }

  /** `re.sub(r'\s+', ' ', s)`: every maximal run of whitespace becomes one
      space; a run is replaced at its last character. */
  function Collapse(s: string): string
  {
    if s == [] then []
    else if IsSpace(s[0]) then
      if |s| > 1 && IsSpace(s[1]) then Collapse(s[1..]) else [' '] + Collapse(s[1..])
    else [s[0]] + Collapse(s[1..])
  }

  /** `Restaurant.clean_text` on a string, where no exception can occur. */
  function CleanText(s: string): string
  {
    Collapse(Strip(Keep(LowerStr(s))))
  }

  /** `Restaurant.clean_text` on any cell: a non-string raises at `.lower()`
      and the handler returns the argument as it was. */
  function CleanValue(v: Value): (r: Value)
    ensures v.NonStr? ==> r == v
    ensures v.Str? ==> r.Str?
  {
    match v
    case Str(s) => Str(CleanText(s))
    case NonStr => v
  }

  /** Lower-casing leaves no upper-case letter and changes nothing in text
      that has none. */
  lemma LowerStrProps(s: string)
    ensures forall i :: 0 <= i < |s| ==> !IsUpper(LowerStr(s)[i])
    ensures (forall i :: 0 <= i < |s| ==> !IsUpper(s[i])) ==> LowerStr(s) == s
  {
  }

  /** The filter keeps only word and whitespace characters of its input, and
      all of them when there is nothing else; on one character it keeps that
      character exactly when it is a word or whitespace character. */
  lemma {:induction false} KeepProps(s: string)
    ensures forall i :: 0 <= i < |Keep(s)| ==> (IsWord(Keep(s)[i]) || IsSpace(Keep(s)[i])) && Keep(s)[i] in s
    ensures (forall i :: 0 <= i < |s| ==> IsWord(s[i]) || IsSpace(s[i])) ==> Keep(s) == s
    ensures |s| == 1 ==> Keep(s) == (if IsWord(s[0]) || IsSpace(s[0]) then s else [])
  {
    if s != [] {
      KeepProps(s[1..]);
    }
  }

  /** The filter works character by character: filtering two pieces one after
      the other is filtering the whole, so with `KeepProps` every word and
      whitespace character is kept, in order, and every other one deleted. */
  lemma {:induction false} KeepAppend(a: string, b: string)
    ensures Keep(a + b) == Keep(a) + Keep(b)
  {
    if a == [] {
      assert a + b == b;
    } else {
      assert (a + b)[1..] == a[1..] + b;
      KeepAppend(a[1..], b);
    }
  }

  lemma {:induction false} StripLeftProps(s: string)
    ensures |StripLeft(s)| <= |s| && StripLeft(s) == s[|s| - |StripLeft(s)|..]
    ensures StripLeft(s) == [] || !IsSpace(StripLeft(s)[0])
  {
    if s != [] && IsSpace(s[0]) {
      StripLeftProps(s[1..]);
    }
  }

  /** What `lstrip` drops is whitespace. */
  lemma {:induction false} StripLeftDrops(s: string)
    ensures |StripLeft(s)| <= |s|
    ensures forall i :: 0 <= i < |s| - |StripLeft(s)| ==> IsSpace(s[i])
  {
    if s != [] && IsSpace(s[0]) {
      var t := s[1..];
      StripLeftDrops(t);
      forall i | 1 <= i < |s| - |StripLeft(s)|
        ensures IsSpace(s[i])
      {
        assert s[i] == t[i - 1];
      }
    }
  }

  lemma {:induction false} StripRightProps(s: string)
    ensures |StripRight(s)| <= |s| && StripRight(s) == s[..|StripRight(s)|]
    ensures StripRight(s) == [] || !IsSpace(StripRight(s)[|StripRight(s)| - 1])
  {
    if s != [] && IsSpace(s[|s| - 1]) {
      StripRightProps(s[..|s| - 1]);
    }
  }

  /** What `rstrip` drops is whitespace. */
  lemma {:induction false} StripRightDrops(s: string)
    ensures |StripRight(s)| <= |s|
    ensures forall i :: |StripRight(s)| <= i < |s| ==> IsSpace(s[i])
  {
    if s != [] && IsSpace(s[|s| - 1]) {
      var t := s[..|s| - 1];
      StripRightDrops(t);
      forall i | |StripRight(s)| <= i < |s| - 1
        ensures IsSpace(s[i])
      {
        assert s[i] == t[i];
      }
    }
  }

  /** Stripping leaves no whitespace at either end, keeps only characters of
      its input, and changes nothing that has no whitespace at either end. */
  lemma StripProps(s: string)
    ensures var r := Strip(s);
      && (r == [] || (!IsSpace(r[0]) && !IsSpace(r[|r| - 1])))
      && (forall i :: 0 <= i < |r| ==> r[i] in s)
    ensures s == [] || (!IsSpace(s[0]) && !IsSpace(s[|s| - 1])) ==> Strip(s) == s
  {
    var l := StripLeft(s);
    StripLeftProps(s);
    StripRightProps(l);
    assert forall i :: 0 <= i < |l| ==> l[i] == s[|s| - |l| + i];
  }

  /** Stripping yields a slice `s[a..b]` of its input with only whitespace
      outside it; with `StripProps` (no whitespace at either end of the
      slice) that slice is exactly `s` without its leading and trailing
      whitespace. */
  lemma StripIsSlice(s: string)
    ensures var a := |s| - |StripLeft(s)|; var b := a + |Strip(s)|;
      && 0 <= a <= b <= |s| && Strip(s) == s[a..b]
      && (forall i :: 0 <= i < a || b <= i < |s| ==> IsSpace(s[i]))
  {
    var l := StripLeft(s);
    StripLeftProps(s);
    StripLeftDrops(s);
    StripRightProps(l);
    StripRightDrops(l);
    StripSlice(s, l, StripRight(l));
  }

  /** `s` with leading whitespace `s[..|s| - |l|]` dropped gives `l`, and `l`
      with trailing whitespace dropped gives `r`: so `r` is a slice of `s`
      with only whitespace around it. */
  lemma StripSlice(s: string, l: string, r: string)
    requires |l| <= |s| && l == s[|s| - |l|..]
    requires forall i :: 0 <= i < |s| - |l| ==> IsSpace(s[i])
    requires |r| <= |l| && r == l[..|r|]
    requires forall i :: |r| <= i < |l| ==> IsSpace(l[i])
    ensures var a := |s| - |l|; var b := a + |r|;
      && 0 <= a <= b <= |s| && r == s[a..b]
      && (forall i :: 0 <= i < a || b <= i < |s| ==> IsSpace(s[i]))
  {
    var a := |s| - |l|;
    forall i | a + |r| <= i < |s|
      ensures IsSpace(s[i])
    {
      assert s[i] == l[i - a];
    }
  }

  /** Collapsing leaves single spaces between the non-whitespace characters of
      its input, keeps all of those in order, and keeps the first and the last
      character when they are not whitespace. */
  lemma {:induction false} CollapseProps(s: string)
    ensures NonSpace(Collapse(s)) == NonSpace(s)
    ensures var r := Collapse(s);
      && (forall i :: 0 <= i < |r| ==> r[i] == ' ' || (!IsSpace(r[i]) && r[i] in s))
      && (forall i :: 0 <= i < |r| - 1 ==> r[i] != ' ' || r[i + 1] != ' ')
      && (s != [] && !IsSpace(s[0]) ==> r != [] && r[0] == s[0])
      && (s != [] && IsSpace(s[0]) ==> r != [] && r[0] == ' ')
      && (s != [] && !IsSpace(s[|s| - 1]) ==> r != [] && r[|r| - 1] == s[|s| - 1])
  {
    NonSpaceCollapse(s);
    if s != [] {
      CollapseProps(s[1..]);
    }
  }

  /** A non-empty run made only of whitespace becomes exactly one space. */
  lemma {:induction false} CollapseRun(s: string)
    requires s != []
    requires forall i :: 0 <= i < |s| ==> IsSpace(s[i])
    ensures Collapse(s) == [' ']
  {
    if |s| > 1 {
      CollapseRun(s[1..]);
    }
  }

  /** Collapsing works piece by piece wherever the cut does not split a run of
      whitespace. With `CollapseRun` and the non-whitespace case of
      `CollapseProps` this says the whole of the substitution: every maximal
      run becomes exactly one space and every other character is kept, in
      order. */
  lemma {:induction false} CollapseAppend(a: string, b: string)
    requires a != [] && b != []
    requires !IsSpace(a[|a| - 1]) || !IsSpace(b[0])
    ensures Collapse(a + b) == Collapse(a) + Collapse(b)
  {
    assert (a + b)[1..] == a[1..] + b;
    if |a| > 1 {
      assert (a + b)[1] == a[1];
      CollapseAppend(a[1..], b);
    } else {
      assert a[1..] == [] && a[1..] + b == b;
    }
  }

  /** On a string, `clean_text` yields clean text; on anything else, its argument. */
  lemma CleanValueIsClean(v: Value)
    ensures v.Str? ==> CleanValue(v).Str? && IsClean(CleanValue(v).text)
    ensures v.NonStr? ==> CleanValue(v) == v
  {
    if v.Str? {
      CleanTextIsClean(v.text);
    }
  }

  /** The shape of every output of `clean_text` on a string: lower-case word
      characters and single spaces, with no space at either end. */
  predicate IsClean(s: string)
  {
    && (forall i :: 0 <= i < |s| ==> IsLowerWord(s[i]) || s[i] == ' ')
    && (s != [] ==> s[0] != ' ' && s[|s| - 1] != ' ')
    && (forall i :: 0 <= i < |s| - 1 ==> s[i] != ' ' || s[i + 1] != ' ')
  }

  /** Every output of `clean_text` on a string has the clean shape. */
  lemma CleanTextIsClean(s: string)
    ensures IsClean(CleanText(s))
  {
    var lowered := LowerStr(s);
    var kept := Keep(lowered);
    var stripped := Strip(kept);
    assert forall i :: 0 <= i < |kept| ==> IsLowerWord(kept[i]) || IsSpace(kept[i]) by {
      LowerStrProps(s);
      KeepProps(lowered);
    }
    assert forall i :: 0 <= i < |stripped| ==> IsLowerWord(stripped[i]) || IsSpace(stripped[i]) by {
      StripProps(kept);
    }
    assert stripped == [] || (!IsSpace(stripped[0]) && !IsSpace(stripped[|stripped| - 1])) by {
      StripProps(kept);
    }
    CollapseClean(stripped);
  }

  lemma CollapseClean(s: string)
    requires forall i :: 0 <= i < |s| ==> IsLowerWord(s[i]) || IsSpace(s[i])
    requires s == [] || (!IsSpace(s[0]) && !IsSpace(s[|s| - 1]))
    ensures IsClean(Collapse(s))
  {
    CollapseProps(s);
  }

  /** Text already in clean shape passes through `Collapse` unchanged. */
  lemma {:induction false} CollapseFixes(s: string)
    requires forall i :: 0 <= i < |s| ==> s[i] == ' ' || !IsSpace(s[i])
    requires forall i :: 0 <= i < |s| - 1 ==> s[i] != ' ' || s[i + 1] != ' '
    ensures Collapse(s) == s
  {
    if s != [] {
      CollapseFixes(s[1..]);
      if IsSpace(s[0]) {
        assert |s| > 1 ==> !IsSpace(s[1]);
      }
    }
  }

  /** Clean text is its own cleaning. */
  lemma CleanTextFixes(s: string)
    requires IsClean(s)
    ensures CleanText(s) == s
  {
    assert forall i :: 0 <= i < |s| ==> !IsUpper(s[i]);
    LowerStrProps(s);
    assert forall i :: 0 <= i < |s| ==> IsWord(s[i]) || IsSpace(s[i]);
    KeepProps(s);
    StripProps(s);
    forall i | 0 <= i < |s| ensures s[i] == ' ' || !IsSpace(s[i]) {
      assert IsLowerWord(s[i]) || s[i] == ' ';
    }
    CollapseFixes(s);
  }

  /** Cleaning is idempotent. */
  lemma CleanTextIdempotent(s: string)
    ensures CleanText(CleanText(s)) == CleanText(s)
  {
    CleanTextIsClean(s);
    CleanTextFixes(CleanText(s));
  }

  /** The word characters of `s`, in order. */
  function WordChars(s: string): (r: string)
    ensures forall i :: 0 <= i < |r| ==> IsWord(r[i])
  {
    if s == [] then [] else (if IsWord(s[0]) then [s[0]] else []) + WordChars(s[1..])
  }

  /** `s` with every whitespace character removed. */
  function NonSpace(s: string): (r: string)
    ensures forall i :: 0 <= i < |r| ==> !IsSpace(r[i])
  {
    if s == [] then [] else (if IsSpace(s[0]) then [] else [s[0]]) + NonSpace(s[1..])
  }

  lemma {:induction false} NonSpaceAppend(a: string, b: string)
    ensures NonSpace(a + b) == NonSpace(a) + NonSpace(b)
  {
    if a != [] {
      assert (a + b)[1..] == a[1..] + b;
      NonSpaceAppend(a[1..], b);
    } else {
      assert a + b == b;
    }
  }

  lemma {:induction false} NonSpaceStripLeft(s: string)
    ensures NonSpace(StripLeft(s)) == NonSpace(s)
  {
    if s != [] && IsSpace(s[0]) {
      NonSpaceStripLeft(s[1..]);
    }
  }

  lemma {:induction false} NonSpaceStripRight(s: string)
    ensures NonSpace(StripRight(s)) == NonSpace(s)
  {
    if s != [] && IsSpace(s[|s| - 1]) {
      var init := s[..|s| - 1];
      NonSpaceStripRight(init);
      assert s == init + [s[|s| - 1]];
      NonSpaceAppend(init, [s[|s| - 1]]);
    }
  }

  lemma {:induction false} NonSpaceCollapse(s: string)
    ensures NonSpace(Collapse(s)) == NonSpace(s)
  {
    if s != [] {
      NonSpaceCollapse(s[1..]);
      if IsSpace(s[0]) && !(|s| > 1 && IsSpace(s[1])) {
        NonSpaceAppend([' '], Collapse(s[1..]));
      } else if !IsSpace(s[0]) {
        NonSpaceAppend([s[0]], Collapse(s[1..]));
      }
    }
  }

  lemma {:induction false} NonSpaceKeep(s: string)
    ensures NonSpace(Keep(s)) == WordChars(s)
  {
    if s != [] {
      NonSpaceKeep(s[1..]);
      if IsWord(s[0]) || IsSpace(s[0]) {
        NonSpaceAppend([s[0]], Keep(s[1..]));
      }
    }
  }

  /** Cleaning loses no word character and invents none: apart from the single
      spaces, the output is exactly the word characters of the lower-cased
      input, in their original order. */
  lemma CleanTextKeepsWords(s: string)
    ensures NonSpace(CleanText(s)) == WordChars(LowerStr(s))
  {
    var kept := Keep(LowerStr(s));
    NonSpaceKeep(LowerStr(s));
    NonSpaceStripLeft(kept);
    NonSpaceStripRight(StripLeft(kept));
    NonSpaceCollapse(Strip(kept));
  }
}
