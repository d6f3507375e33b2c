/**
 The string handling that lists of names and keys are stored through: trimming white space,
 splitting at a separator, joining with it, and dropping blank entries.
 */
module Text {

  /** Unicode white space. */
  predicate IsSpace(c: char) {
    || '\t' <= c <= '\r'
    || c == ' ' || c == '\U{0085}' || c == '\U{00A0}' || c == '\U{1680}'
    || '\U{2000}' <= c <= '\U{200A}'
    || c == '\U{2028}' || c == '\U{2029}' || c == '\U{202F}' || c == '\U{205F}' || c == '\U{3000}'
  }

  function TrimLeft(s: string): string {
    if s != "" && IsSpace(s[0]) then TrimLeft(s[1..]) else s
  }

  function TrimRight(s: string): string {
    if s != "" && IsSpace(s[|s| - 1]) then TrimRight(s[..|s| - 1]) else s
  }

  function TrimSpace(s: string): string {
    TrimRight(TrimLeft(s))
  }

  /** No white space at either end. */
  predicate Trimmed(s: string) {
    s != "" ==> !IsSpace(s[0]) && !IsSpace(s[|s| - 1])
  }

  /** strings.Trim with a one-character cutset. */
  function TrimChar(s: string, c: char): string
    decreases |s|
  {
    if s == "" then s
    else if s[0] == c then TrimChar(s[1..], c)
    else if s[|s| - 1] == c then TrimChar(s[..|s| - 1], c)
    else s
  }

  /** The fields between separators; there is always at least one. */
  function Split(s: string, sep: char): (parts: seq<string>)
    ensures parts != []
  {
    if s == "" then [""]
    else Prepend(s[0], Split(s[1..], sep), sep)
  }

  /** The fields of a string with one more character in front. */
  function Prepend(c: char, parts: seq<string>, sep: char): (parts': seq<string>)
    requires parts != []
    ensures parts' != []
  {
    if c == sep then [""] + parts else [[c] + parts[0]] + parts[1..]
  }

  function Join(parts: seq<string>, sep: char): string {
    if parts == [] then ""
    else if |parts| == 1 then parts[0]
    else parts[0] + [sep] + Join(parts[1..], sep)
  }

  /** The entries with white space trimmed, blank ones dropped. */
  function Clean(parts: seq<string>): seq<string> {
    if parts == [] then []
    else
      var last := TrimSpace(parts[|parts| - 1]);
      Clean(parts[..|parts| - 1]) + if last == "" then [] else [last]
  }

  /** A stored list of entries, as it is read back: cleaned fields. */
  function Fields(s: string, sep: char): seq<string> {
    Clean(Split(s, sep))
  }

  /** What a cleaned field looks like: trimmed, not blank, on one line. */
  predicate IsField(s: string, sep: char) {
    s != "" && Trimmed(s) && sep !in s
  }

  predicate AreFields(parts: seq<string>, sep: char) {
    forall i :: 0 <= i < |parts| ==> IsField(parts[i], sep)
  }

  // ----- trimming -----

  lemma {:induction false} TrimLeftProperties(s: string)
    ensures TrimLeft(s) != "" ==> !IsSpace(TrimLeft(s)[0])
    ensures |TrimLeft(s)| <= |s| && TrimLeft(s) == s[|s| - |TrimLeft(s)|..]
  {
    if s != "" && IsSpace(s[0]) {
      TrimLeftProperties(s[1..]);
    }
  }

  lemma {:induction false} TrimRightProperties(s: string)
    ensures TrimRight(s) <= s
    ensures TrimRight(s) != "" ==> !IsSpace(TrimRight(s)[|TrimRight(s)| - 1])
  {
    if s != "" && IsSpace(s[|s| - 1]) {
      TrimRightProperties(s[..|s| - 1]);
    }
  }

  lemma TrimSpaceIsTrimmed(s: string)
    ensures Trimmed(TrimSpace(s))
    ensures forall c :: c in TrimSpace(s) ==> c in s
  {
    TrimLeftProperties(s);
    TrimRightProperties(TrimLeft(s));
  }

  lemma TrimSpaceOfTrimmed(s: string)
    requires Trimmed(s)
    ensures TrimSpace(s) == s
  {
  }

  lemma {:induction false} TrimRightOfSpaced(s: string, c: char)
    requires IsSpace(c)
    ensures TrimRight(s + [c]) == TrimRight(s)
  {
    assert (s + [c])[..|s|] == s;
  }

  /** A space at either end makes no difference to the trimmed string. */
  lemma {:induction false} TrimSpaceOfSpaced(s: string, c: char)
    requires IsSpace(c)
    ensures TrimSpace([c] + s) == TrimSpace(s)
    ensures TrimSpace(s + [c]) == TrimSpace(s)
  {
    assert ([c] + s)[1..] == s;
    TrimLeftOfSpaced(s, c);
  }

  lemma {:induction false} TrimLeftOfSpaced(s: string, c: char)
    requires IsSpace(c)
    ensures TrimRight(TrimLeft(s + [c])) == TrimRight(TrimLeft(s))
  {
    if s == "" {
      assert s + [c] == [c];
      assert [c][1..] == "";
    } else if IsSpace(s[0]) {
      assert (s + [c])[1..] == s[1..] + [c];
      TrimLeftOfSpaced(s[1..], c);
    } else {
      assert TrimLeft(s + [c]) == s + [c];
      TrimRightOfSpaced(s, c);
    }
  }

  // ----- cleaning -----

  lemma {:induction false} CleanConcat(a: seq<string>, b: seq<string>)
    ensures Clean(a + b) == Clean(a) + Clean(b)
  {
    if b == [] {
      assert a + b == a;
    } else {
      var front := b[..|b| - 1];
      assert (a + b)[..|a + b| - 1] == a + front;
      CleanConcat(a, front);
    }
  }

  lemma {:induction false} CleanIsClean(parts: seq<string>, sep: char)
    requires forall i :: 0 <= i < |parts| ==> sep !in parts[i]
    ensures AreFields(Clean(parts), sep)
  {
    if parts != [] {
      CleanIsClean(parts[..|parts| - 1], sep);
      TrimSpaceIsTrimmed(parts[|parts| - 1]);
    }
  }

  lemma {:induction false} CleanOfFields(parts: seq<string>, sep: char)
    requires AreFields(parts, sep)
    ensures Clean(parts) == parts
  {
    hide TrimSpace, Trimmed;
    if parts != [] {
      var front, last := parts[..|parts| - 1], parts[|parts| - 1];
      CleanOfFields(front, sep);
      assert IsField(last, sep);
      TrimSpaceOfTrimmed(last);
      assert front + [last] == parts;
    }
  }

  lemma TrimSpaceLength(s: string)
    ensures |TrimSpace(s)| <= |s|
  {
    TrimLeftProperties(s);
    TrimRightProperties(TrimLeft(s));
  }

  lemma {:induction false} CleanLength(parts: seq<string>, n: nat, field: string)
    requires forall i :: 0 <= i < |parts| ==> |parts[i]| <= n
    requires field in Clean(parts)
    ensures |field| <= n
  {
    if parts != [] {
      TrimSpaceLength(parts[|parts| - 1]);
      if field in Clean(parts[..|parts| - 1]) {
        CleanLength(parts[..|parts| - 1], n, field);
      }
    }
  }

  // ----- splitting and joining -----

  lemma PrependConcat(c: char, a: seq<string>, b: seq<string>, sep: char)
    requires a != []
    ensures Prepend(c, a + b, sep) == Prepend(c, a, sep) + b
  {
    assert (a + b)[1..] == a[1..] + b;
  }

  lemma {:induction false} SplitAtSeparator(a: string, sep: char, b: string)
    ensures Split(a + [sep] + b, sep) == Split(a, sep) + Split(b, sep)
  {
    var s := a + [sep] + b;
    if a == "" {
      assert s[1..] == b;
    } else {
      hide Prepend;
      assert s[1..] == a[1..] + [sep] + b;
      SplitAtSeparator(a[1..], sep, b);
      PrependConcat(a[0], Split(a[1..], sep), Split(b, sep), sep);
    }
  }

  lemma {:induction false} SplitPartsAreSeparatorFree(s: string, sep: char)
    ensures forall i :: 0 <= i < |Split(s, sep)| ==> sep !in Split(s, sep)[i]
  {
    if s != "" {
      SplitPartsAreSeparatorFree(s[1..], sep);
    }
  }

  lemma {:induction false} SplitLength(s: string, sep: char)
    ensures forall i :: 0 <= i < |Split(s, sep)| ==> |Split(s, sep)[i]| <= |s|
  {
    if s != "" {
      SplitLength(s[1..], sep);
    }
  }

  /** No field is longer than the string it is read from. */
  lemma FieldLength(s: string, sep: char, field: string)
    requires field in Fields(s, sep)
    ensures |field| <= |s|
  {
    SplitLength(s, sep);
    CleanLength(Split(s, sep), |s|, field);
  }

  lemma {:induction false} SplitOfSeparatorFree(s: string, sep: char)
    requires sep !in s
    ensures Split(s, sep) == [s]
  {
    if s != "" {
      SplitOfSeparatorFree(s[1..], sep);
      assert [s[0]] + s[1..] == s;
    }
  }

  /** Splitting a joined list gives the list back when no entry contains the separator. */
  lemma {:induction false} SplitJoined(parts: seq<string>, sep: char)
    requires parts != []
    requires forall i :: 0 <= i < |parts| ==> sep !in parts[i]
    ensures Split(Join(parts, sep), sep) == parts
  {
    SplitOfSeparatorFree(parts[0], sep);
    if |parts| > 1 {
      SplitAtSeparator(parts[0], sep, Join(parts[1..], sep));
      SplitJoined(parts[1..], sep);
    }
  }

  /** The fields of a joined list, entry by entry: an entry that contains the separator falls apart. */
  function AllFields(parts: seq<string>, sep: char): seq<string> {
    if parts == [] then [] else Fields(parts[0], sep) + AllFields(parts[1..], sep)
  }

  lemma {:induction false} FieldsOfJoined(parts: seq<string>, sep: char)
    ensures Fields(Join(parts, sep), sep) == AllFields(parts, sep)
  {
    if parts == [] {
      FieldsDropBlank([]);
    } else if |parts| > 1 {
      SplitAtSeparator(parts[0], sep, Join(parts[1..], sep));
      CleanConcat(Split(parts[0], sep), Split(Join(parts[1..], sep), sep));
      FieldsOfJoined(parts[1..], sep);
    } else {
      assert AllFields(parts, sep) == Fields(parts[0], sep) + [];
    }
  }

  /** A list of fields is read back unchanged after it has been joined. */
  lemma JoinedFieldsRoundTrip(parts: seq<string>, sep: char)
    requires AreFields(parts, sep)
    ensures Fields(Join(parts, sep), sep) == parts
  {
    if parts == [] {
      FieldsOfJoined(parts, sep);
    } else {
      SplitJoined(parts, sep);
      CleanOfFields(parts, sep);
    }
  }

  lemma FieldsAreFields(s: string, sep: char)
    ensures AreFields(Fields(s, sep), sep)
  {
    SplitPartsAreSeparatorFree(s, sep);
    CleanIsClean(Split(s, sep), sep);
  }

  lemma FieldsOfEnded(s: string, sep: char)
    ensures Fields("" + [sep] + s, sep) == Fields(s, sep) == Fields(s + [sep] + "", sep)
  {
    assert Split("", sep) == [""];
    SplitAtSeparator("", sep, s);
    SplitAtSeparator(s, sep, "");
    FieldsDropBlank(Split(s, sep));
  }

  /** Separators at the ends of a stored list only produce blank entries. */
  lemma {:induction false} FieldsOfTrimmedChar(s: string, sep: char)
    ensures Fields(TrimChar(s, sep), sep) == Fields(s, sep)
    decreases |s|
  {
    hide Fields;
    if s != "" {
      if s[0] == sep {
        FieldsOfTrimmedChar(s[1..], sep);
        assert "" + [sep] + s[1..] == s;
        FieldsOfEnded(s[1..], sep);
      } else if s[|s| - 1] == sep {
        var front := s[..|s| - 1];
        FieldsOfTrimmedChar(front, sep);
        assert front + [sep] + "" == s;
        FieldsOfEnded(front, sep);
      }
    }
  }

  /** White space at the ends of a stored list makes no difference to its fields. */
  lemma {:induction false} FieldsOfTrimLeft(s: string, sep: char)
    ensures Fields(TrimLeft(s), sep) == Fields(s, sep)
  {
    if s != "" && IsSpace(s[0]) {
      FieldsOfTrimLeft(s[1..], sep);
      var rest := Split(s[1..], sep);
      if s[0] == sep {
        FieldsDropBlank(rest);
      } else {
        CleanConcat([[s[0]] + rest[0]], rest[1..]);
        CleanConcat([rest[0]], rest[1..]);
        assert [rest[0]] + rest[1..] == rest;
        TrimSpaceOfSpaced(rest[0], s[0]);
      }
    }
  }

  function AppendToLast(parts: seq<string>, c: char): seq<string>
    requires parts != []
  {
    if |parts| == 1 then [parts[0] + [c]] else [parts[0]] + AppendToLast(parts[1..], c)
  }

  lemma {:induction false} SplitSnoc(s: string, sep: char, c: char)
    requires c != sep
    ensures Split(s + [c], sep) == AppendToLast(Split(s, sep), c)
  {
    if s == "" {
      assert s + [c] == [c];
      assert [c][1..] == "" && [c] + "" == "" + [c];
    } else {
      assert (s + [c])[1..] == s[1..] + [c];
      SplitSnoc(s[1..], sep, c);
      var rest := Split(s[1..], sep);
      if s[0] == sep {
        assert ([""] + rest)[1..] == rest;
      } else if |rest| == 1 {
        assert [s[0]] + (rest[0] + [c]) == ([s[0]] + rest[0]) + [c];
      } else {
        assert ([[s[0]] + rest[0]] + rest[1..])[1..] == rest[1..];
      }
    }
  }

  lemma {:induction false} CleanSpacedLast(parts: seq<string>, c: char)
    requires parts != [] && IsSpace(c)
    ensures Clean(AppendToLast(parts, c)) == Clean(parts)
  {
    if |parts| == 1 {
      TrimSpaceOfSpaced(parts[0], c);
    } else {
      CleanSpacedLast(parts[1..], c);
      CleanConcat([parts[0]], AppendToLast(parts[1..], c));
      CleanConcat([parts[0]], parts[1..]);
      assert [parts[0]] + parts[1..] == parts;
    }
  }

  lemma FieldsOfSpaced(s: string, sep: char, c: char)
    requires IsSpace(c)
    ensures Fields(s + [c], sep) == Fields(s, sep)
  {
    if c == sep {
      assert s + [c] == s + [sep] + "";
      FieldsOfEnded(s, sep);
    } else {
      SplitSnoc(s, sep, c);
      CleanSpacedLast(Split(s, sep), c);
    }
  }

  lemma {:induction false} FieldsOfTrimRight(s: string, sep: char)
    ensures Fields(TrimRight(s), sep) == Fields(s, sep)
  {
    hide Fields;
    if s != "" && IsSpace(s[|s| - 1]) {
      var front, c := s[..|s| - 1], s[|s| - 1];
      FieldsOfTrimRight(front, sep);
      FieldsOfSpaced(front, sep, c);
      assert front + [c] == s;
    }
  }

  lemma FieldsOfTrimSpace(s: string, sep: char)
    ensures Fields(TrimSpace(s), sep) == Fields(s, sep)
  {
    FieldsOfTrimLeft(s, sep);
    FieldsOfTrimRight(TrimLeft(s), sep);
  }

  lemma FieldsDropBlank(parts: seq<string>)
    ensures Clean([""] + parts) == Clean(parts)
    ensures Clean(parts + [""]) == Clean(parts)
  {
    CleanConcat([""], parts);
    CleanConcat(parts, [""]);
    assert Clean([""]) == [] by { assert TrimSpace("") == ""; }
  }
}
