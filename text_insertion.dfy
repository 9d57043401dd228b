/** The spacing and splicing rule of the text insertion engine: a transcript
    fragment goes into a field's value at the caret, preceded by one space
    when it would otherwise stick to the word before it. Only the literal
    space character counts as a separator; tabs and newlines do not. */
module TextInsertion {

  /** The result of one insertion: the field's full new value and the new
      caret (selection start and end). */
  datatype Insertion = Insertion(value: string, caret: nat)

  /** A space is prepended exactly when the caret is past the start, the
      character before it is not a space, and the fragment does not start
      with one (an empty fragment has no first character, and the host then
      compares "undefined" with a space, which differs). */
  predicate NeedsSpace(value: string, pos: nat, text: string)
    requires pos <= |value|
  {
    pos > 0 && value[pos - 1] != ' ' && (|text| == 0 || text[0] != ' ')
  }

  /** The text actually inserted. It always ends with the whole fragment; it
      is one character longer exactly when the caret is past the start, the
      character before it is not a space and the fragment does not start
      with one; and that extra character is a space. */
  function Spaced(value: string, pos: nat, text: string): (t: string)
    requires pos <= |value|
    ensures |text| <= |t| && t[|t| - |text|..] == text
    ensures |t| == |text| + 1 <==> (pos > 0 && value[pos - 1] != ' ' && (|text| == 0 || text[0] != ' '))
    ensures |t| != |text| ==> |t| == |text| + 1 && t[0] == ' '
  {
    if NeedsSpace(value, pos, text) then " " + text else text
  }

  /** insertAtCursor on plain data: value[..pos] + inserted + value[pos..],
      the caret just after the inserted text. */
  function Insert(value: string, pos: nat, text: string): (r: Insertion)
    requires pos <= |value|
  {
    var t := Spaced(value, pos, text);
    Insertion(value[..pos] + t + value[pos..], pos + |t|)
  }

  /** The new value keeps everything before the caret and everything after
      it, holds the inserted text between them, grows by exactly the
      inserted length, and the caret ends right after the insertion. */
  lemma InsertSplices(value: string, pos: nat, text: string)
    requires pos <= |value|
    ensures var r := Insert(value, pos, text);
            var t := Spaced(value, pos, text);
            && |r.value| == |value| + |t|
            && r.value[..pos] == value[..pos]
            && r.value[pos..r.caret] == t
            && r.value[r.caret..] == value[pos..]
            && r.caret == pos + |t| <= |r.value|
  {
    var r := Insert(value, pos, text);
    var t := Spaced(value, pos, text);
    assert r.value == value[..pos] + t + value[pos..];
    assert r.value[..pos] == value[..pos];
    assert r.value[pos..pos + |t|] == t;
    assert r.value[pos + |t|..] == value[pos..];
  }

  /** The inserted text is one character longer than the fragment exactly
      when the spacing rule fires, and never longer than that. */
  lemma SpaceAddedIff(value: string, pos: nat, text: string)
    requires pos <= |value|
    ensures |Insert(value, pos, text).value| == |value| + |text| + 1 <==>
              (pos > 0 && value[pos - 1] != ' ' && (|text| == 0 || text[0] != ' '))
    ensures |Insert(value, pos, text).value| == |value| + |text| <==>
              !(pos > 0 && value[pos - 1] != ' ' && (|text| == 0 || text[0] != ' '))
  {
    InsertSplices(value, pos, text);
  }

  /** After insertion of a non-empty fragment past the start of the value,
      the old text and the new text are separated by a space: the engine
      never glues two words together. */
  lemma NoWordsGlued(value: string, pos: nat, text: string)
    requires pos <= |value| && 0 < pos && |text| > 0
    ensures var r := Insert(value, pos, text).value;
            r[pos - 1] == ' ' || r[pos] == ' '
  {
    InsertSplices(value, pos, text);
    var r := Insert(value, pos, text).value;
    assert r[pos - 1] == value[pos - 1];
    assert r[pos] == Spaced(value, pos, text)[0];
  }

  /** A space the engine adds never makes a double space: it sits between a
      non-space character of the old value and the fragment's non-space
      first character. */
  lemma NoDoubleSpace(value: string, pos: nat, text: string)
    requires pos <= |value| && NeedsSpace(value, pos, text)
    ensures var r := Insert(value, pos, text).value;
            && r[pos] == ' '
            && r[pos - 1] != ' '
            && (|text| > 0 ==> r[pos + 1] != ' ')
  {
    InsertSplices(value, pos, text);
    var r := Insert(value, pos, text).value;
    assert r[pos - 1] == value[pos - 1];
    assert r[pos] == Spaced(value, pos, text)[0];
    if |text| > 0 {
      assert r[pos + 1] == Spaced(value, pos, text)[1];
    }
  }

  /** Inserting at the very start, or after a space, or a fragment that
      already starts with a space, inserts the fragment verbatim. */
  lemma VerbatimInsertion(value: string, pos: nat, text: string)
    requires pos <= |value|
    requires pos == 0 || value[pos - 1] == ' ' || (|text| > 0 && text[0] == ' ')
    ensures Insert(value, pos, text) == Insertion(value[..pos] + text + value[pos..], pos + |text|)
  {
  }

  /** Worked examples of the rule: after a space no space is added; offset
      5 of "world " is before its trailing space, so a space is added there
      and the old space follows the fragment; an empty field takes the
      fragment as it is. */
  lemma InsertExamples()
    ensures Insert("world ", 6, "hello") == Insertion("world hello", 11)
    ensures Insert("world ", 5, "hello") == Insertion("world hello ", 11)
    ensures Insert("", 0, "hello") == Insertion("hello", 5)
  {
    assert Spaced("world ", 6, "hello") == "hello";
    assert "world "[..6] == "world " && "world "[6..] == "";
    assert Spaced("world ", 5, "hello") == " hello";
    assert "world "[..5] == "world" && "world "[5..] == " ";
    assert Spaced("", 0, "hello") == "hello";
  }

  /** More worked examples: a fragment with or without its own leading
      space gives the same text, and a newline is not a space, so the rule
      still adds one after it. */
  lemma InsertSeparatorExamples()
    ensures Insert("abc", 3, "foo") == Insertion("abc foo", 7)
    ensures Insert("abc", 3, " foo") == Insertion("abc foo", 7)
    ensures Insert("abc\n", 4, "foo") == Insertion("abc\n foo", 8)
  {
    assert Spaced("abc", 3, "foo") == " foo";
    assert Spaced("abc", 3, " foo") == " foo";
    assert "abc"[..3] == "abc" && "abc"[3..] == "";
    assert Spaced("abc\n", 4, "foo") == " foo";
    assert "abc\n"[..4] == "abc\n" && "abc\n"[4..] == "";
  }
}
