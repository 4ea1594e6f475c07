/** Reading the text of a command line back. */
module LineText {
  import opened GoStrings
  import opened CommandLine

  /** A word as key and value: 61 is the equals sign. */
  function ReadWord(w: Bytes): Param {
    var i := IndexByte(w, 61);
    if i == |w| then Param(w, []) else Param(w[..i], w[i + 1..])
  }

  function ReadWords(words: seq<Bytes>): (ps: seq<Param>)
    ensures |ps| == |words|
  {
    seq(|words|, i requires 0 <= i < |words| => ReadWord(words[i]))
  }

  /** A line as its parameters: 32 is the space. */
  function ReadLine(text: Bytes): seq<Param> { ReadWords(Parts(text, 32)) }

  lemma WordReadsBackExactly(p: Param)
    ensures ReadWord(Word(p)) == p <==> 61 !in p.key
  {
    var w := Word(p);
    if 61 !in p.key {
      IndexByteOf(w, 61, |p.key|);
      if p.value != [] {
        assert w[..|p.key|] == p.key && w[|p.key| + 1..] == p.value;
      }
    } else {
      ReadKeyIsBare(w);
    }
  }

  lemma ReadKeyIsBare(w: Bytes)
    ensures 61 !in ReadWord(w).key
  {
    assert 61 !in w[..IndexByte(w, 61)];
  }

  // ----- a whole line

  lemma {:induction false} PartsAtLeast(words: seq<Bytes>, sep: byte)
    requires words != []
    ensures |Parts(Join(words, [sep]), sep)| >= |words|
    ensures |Parts(Join(words, [sep]), sep)| == |words| ==> forall i | 0 <= i < |words| :: sep !in words[i]
    decreases |words|
  {
    hide Parts;
    if |words| == 1 {
      OnlyPart(words[0], sep);
      JoinOne(words[0], sep);
    } else {
      var rest := words[1..];
      PartsAtLeast(rest, sep);
      JoinMore(words, sep);
      PartsOfConcat(words[0], Join(rest, [sep]), sep);
      OnlyPart(words[0], sep);
      if |Parts(Join(words, [sep]), sep)| == |words| {
        forall i | 0 <= i < |words| ensures sep !in words[i] {
          assert i > 0 ==> words[i] == rest[i - 1];
        }
      }
    }
  }

  lemma OnlyPart(s: Bytes, sep: byte)
    ensures |Parts(s, sep)| >= 1 && (|Parts(s, sep)| == 1 ==> sep !in s)
  {
    var i := IndexByte(s, sep);
    if i == |s| {
      assert s[..i] == s;
    }
  }

  lemma JoinOne(w: Bytes, sep: byte)
    ensures Join([w], [sep]) == w
  {
  }

  lemma JoinMore(words: seq<Bytes>, sep: byte)
    requires |words| > 1
    ensures Join(words, [sep]) == words[0] + [sep] + Join(words[1..], [sep])
  {
  }

  /** The line falls apart into the parameters again exactly when there are some, none holds a space and no key holds an
      equals sign. */
  lemma LineReadsBackExactly(ps: seq<Param>)
    ensures ReadLine(Join(Words(ps), [SPACE])) == ps
            <==> ps != [] && forall i | 0 <= i < |ps| :: 32 !in ps[i].key && 32 !in ps[i].value && 61 !in ps[i].key
  {
    hide Parts, Word, ReadWord, Join;
    var text := Join(Words(ps), [SPACE]);
    var parts := Parts(text, SPACE);
    OneWordEach(ps);
    if ReadLine(text) == ps {
      assert |parts| == |ps|;
      PartsAtLeast(Words(ps), SPACE);
      PartsOfJoin(Words(ps), SPACE);
      assert parts == Words(ps);
    }
    if parts == Words(ps) {
      forall i | 0 <= i < |ps| ensures ReadLine(text)[i] == ps[i] <==> 61 !in ps[i].key {
        WordReadsBackExactly(ps[i]);
      }
    }
  }
}
