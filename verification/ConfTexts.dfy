/** Lines of a settings file with their punctuation written out: 61 is the equals sign, 34 the double quote, 35 the
    number sign, 10 the newline. */
module ConfTexts {
  import opened GoStrings
  import opened Quoting
  import opened Unquoting
  import opened DsmConf

  /** The line written for a setting: key, equals sign, and the value as a string literal. */
  lemma AssignmentIsSaid(key: Bytes, value: Bytes)
    ensures var a, n := Assignment(key, value), |key|;
            && |a| >= n + 3 && a[..n] == key && a[n] == 61 && a[n + 1] == 34 && a[|a| - 1] == 34
            && Unescaped(a[n + 2..|a| - 1]) == Some(value)
  {
    hide Escaped, Unescaped;
    QuotingUndone(value);
    var a := Assignment(key, value);
    assert a[|key| + 2..|a| - 1] == Escaped(value);
  }

  /** A text between quotes, as DSM writes its own lines. */
  lemma QuotedIsRead(key: Bytes, text: Bytes)
    requires KeyOk(key)
    ensures SplitLine(key + ([61] + ([34] + text + [34]))) == Some((key, text))
  {
    hide TrimSpace, SpaceAt, SpaceBefore, IndexByte, Quoted;
    var s := key + ([EQUALS] + Quoted(text));
    QuotedIs(text);
    KeyEnds(key, text);
    QuotedIsTrimmed(text);
    QuotedInside(text);
    TrimmedIsSame(key);
    assert s[..|key|] == key && s[|key| + 1..] == Quoted(text);
  }

  lemma QuotedIs(text: Bytes)
    ensures Quoted(text) == [34] + text + [34]
  {
  }

  lemma CommentIsSkipped(text: Bytes)
    ensures SplitLine([35] + text) == None
  {
    hide TrimSpace, IndexByte;
    var s := [35] + text;
    assert SpaceAt(s) == 0;
    HeadIsKept(s);
  }

  /** A file of two lines. */
  lemma TwoLines(a: Bytes, b: Bytes)
    requires 10 !in a && 10 !in b
    ensures Lines(a + [10] + b) == [a, b]
  {
    hide Lines;
    var s := a + [10] + b;
    assert s[..|a|] == a && s[|a| + 1..] == b;
    FirstLine(s, |a|);
    OneLine(b);
  }
}
