/** The kernel command line builder: internal/cmdline/cmdline.go. */
module CommandLine {
  import opened GoStrings

  datatype Param = Param(key: Bytes, value: Bytes)

  const COMMA: byte := 44

  function Console(): Bytes { Ascii("console") }

  // ----- the list of parameters

  /** The first copy of a key, or the number of parameters. */
  function FirstOf(ps: seq<Param>, key: Bytes): (i: nat)
    ensures i <= |ps| && (i < |ps| ==> ps[i].key == key)
  {
    if ps == [] || ps[0].key == key then 0 else 1 + FirstOf(ps[1..], key)
  }

  function Value(ps: seq<Param>, key: Bytes): Option<Bytes> {
    var i := FirstOf(ps, key);
    if i < |ps| then Some(ps[i].value) else None
  }

  function CountOf(ps: seq<Param>, key: Bytes): nat {
    if ps == [] then 0 else CountOf(ps[..|ps| - 1], key) + if ps[|ps| - 1].key == key then 1 else 0
  }

  lemma {:induction false} FirstOfConcat(a: seq<Param>, b: seq<Param>, key: Bytes)
    ensures FirstOf(a + b, key) == if FirstOf(a, key) < |a| then FirstOf(a, key) else |a| + FirstOf(b, key)
  {
    if a == [] {
      assert a + b == b;
    } else {
      assert (a + b)[1..] == a[1..] + b;
      FirstOfConcat(a[1..], b, key);
    }
  }

  lemma {:induction false} NoneBeforeFirst(ps: seq<Param>, key: Bytes)
    ensures forall j | 0 <= j < FirstOf(ps, key) :: ps[j].key != key
  {
    if ps != [] && ps[0].key != key {
      NoneBeforeFirst(ps[1..], key);
      forall j | 0 <= j < FirstOf(ps, key) ensures ps[j].key != key {
        if j > 0 {
          assert ps[j] == ps[1..][j - 1];
        }
      }
    }
  }

  lemma {:induction false} FirstOfIs(ps: seq<Param>, key: Bytes, i: nat)
    requires i <= |ps| && (i < |ps| ==> ps[i].key == key) && forall j | 0 <= j < i :: ps[j].key != key
    ensures FirstOf(ps, key) == i
  {
    if i > 0 {
      FirstOfIs(ps[1..], key, i - 1);
    }
  }

  // ----- the three ways to change it

  datatype Step = Put(key: Bytes, value: Bytes) | Repeat(key: Bytes, value: Bytes) | Csv(key: Bytes, value: Bytes)

  function SetParam(ps: seq<Param>, key: Bytes, value: Bytes): seq<Param> {
    var i := FirstOf(ps, key);
    if i < |ps| then ps[i := Param(key, value)] else ps + [Param(key, value)]
  }

  /** strings.Split at one byte. */
  function Parts(s: Bytes, sep: byte): (r: seq<Bytes>)
    ensures |r| > 0
    ensures forall i | 0 <= i < |r| :: sep !in r[i]
    decreases |s|
  {
    var i := IndexByte(s, sep);
    if i == |s| then assert s[..i] == s; [s] else [s[..i]] + Parts(s[i + 1..], sep)
  }

  /** The value of a list parameter with one more entry. */
  function Joined(cur: Option<Bytes>, value: Bytes): Bytes {
    if cur.None? || cur.value == [] then value
    else if value in Parts(cur.value, COMMA) then cur.value
    else cur.value + [COMMA] + value
  }

  function Changed(ps: seq<Param>, s: Step): seq<Param> {
    match s
    case Put(k, v) => SetParam(ps, k, v)
    case Repeat(k, v) => ps + [Param(k, v)]
    case Csv(k, v) => SetParam(ps, k, Joined(Value(ps, k), v))
  }

  function Applied(steps: seq<Step>): seq<Param> {
    if steps == [] then [] else Changed(Applied(steps[..|steps| - 1]), steps[|steps| - 1])
  }

  lemma {:induction false} SetMeans(ps: seq<Param>, key: Bytes, value: Bytes, other: Bytes)
    ensures Value(SetParam(ps, key, value), other) == if other == key then Some(value) else Value(ps, other)
    ensures FirstOf(ps, other) < |ps| ==> FirstOf(SetParam(ps, key, value), other) == FirstOf(ps, other)
  {
    var i, j, after := FirstOf(ps, key), FirstOf(ps, other), SetParam(ps, key, value);
    NoneBeforeFirst(ps, key);
    NoneBeforeFirst(ps, other);
    if i == |ps| {
      FirstOfConcat(ps, [Param(key, value)], other);
    } else {
      FirstOfIs(after, other, j);
    }
  }

  lemma RepeatMeans(ps: seq<Param>, key: Bytes, value: Bytes, other: Bytes)
    ensures Value(ps + [Param(key, value)], other)
            == if Value(ps, other).Some? then Value(ps, other) else if other == key then Some(value) else None
  {
    FirstOfConcat(ps, [Param(key, value)], other);
  }

  lemma CountOneMore(ps: seq<Param>, p: Param, key: Bytes)
    ensures CountOf(ps + [p], key) == CountOf(ps, key) + if p.key == key then 1 else 0
  {
    assert (ps + [p])[..|ps|] == ps;
  }

  lemma {:induction false} CountKept(ps: seq<Param>, i: nat, p: Param, key: Bytes)
    requires i < |ps| && ps[i].key == p.key
    ensures CountOf(ps[i := p], key) == CountOf(ps, key)
  {
    var last := |ps| - 1;
    if i < last {
      assert ps[i := p][..last] == ps[..last][i := p];
      CountKept(ps[..last], i, p, key);
    } else {
      assert ps[i := p][..last] == ps[..last];
    }
  }

  lemma {:induction false} CountPositive(ps: seq<Param>, key: Bytes)
    ensures CountOf(ps, key) > 0 <==> FirstOf(ps, key) < |ps|
  {
    if ps != [] {
      var front, last := ps[..|ps| - 1], [ps[|ps| - 1]];
      CountPositive(front, key);
      assert ps == front + last;
      FirstOfConcat(front, last, key);
      assert last[1..] == [];
    }
  }

  lemma SetCounts(ps: seq<Param>, key: Bytes, value: Bytes, other: Bytes)
    ensures CountOf(SetParam(ps, key, value), other)
            == if other == key && Value(ps, key).None? then 1 else CountOf(ps, other)
  {
    CountPositive(ps, key);
    if FirstOf(ps, key) < |ps| {
      CountKept(ps, FirstOf(ps, key), Param(key, value), other);
    } else {
      CountOneMore(ps, Param(key, value), other);
    }
  }

  /** A key is repeated only when the step that adds one more copy was used for it. */
  predicate RepeatsOnly(steps: seq<Step>, key: Bytes) {
    forall i | 0 <= i < |steps| && steps[i].Repeat? :: steps[i].key == key
  }

  lemma {:induction false} OthersAppearOnce(steps: seq<Step>, repeated: Bytes, key: Bytes)
    requires RepeatsOnly(steps, repeated) && key != repeated
    ensures CountOf(Applied(steps), key) <= 1
  {
    hide SetParam, Joined, Value, CountOf;
    if steps == [] {
      NothingCounted(key);
    } else {
      var front, s := steps[..|steps| - 1], steps[|steps| - 1];
      OthersAppearOnce(front, repeated, key);
      var ps := Applied(front);
      match s {
        case Put(k, v) => SetCounts(ps, k, v, key);
        case Repeat(k, v) => CountOneMore(ps, Param(k, v), key);
        case Csv(k, v) => SetCounts(ps, k, Joined(Value(ps, k), v), key);
      }
    }
  }

  lemma NothingCounted(key: Bytes)
    ensures CountOf([], key) == 0 && Value([], key) == None
  {
  }

  /** The value a key has after a step. */
  function ValueAfter(was: Option<Bytes>, s: Step, key: Bytes): Option<Bytes> {
    if s.key != key then was
    else
      match s
      case Put(_, v) => Some(v)
      case Repeat(_, v) => if was.Some? then was else Some(v)
      case Csv(_, v) => Some(Joined(was, v))
  }

  lemma StepMeans(ps: seq<Param>, s: Step, key: Bytes)
    ensures Value(Changed(ps, s), key) == ValueAfter(Value(ps, key), s, key)
  {
    hide SetParam, Value, Parts;
    match s {
      case Put(k, v) => SetMeans(ps, k, v, key);
      case Repeat(k, v) => RepeatMeans(ps, k, v, key);
      case Csv(k, v) => SetMeans(ps, k, Joined(Value(ps, k), v), key);
    }
  }

  lemma SetSame(ps: seq<Param>, key: Bytes, value: Bytes)
    ensures Value(ps, key) == Some(value) ==> SetParam(ps, key, value) == ps
  {
    var i := FirstOf(ps, key);
    if i < |ps| && ps[i].value == value {
      assert ps[i] == Param(key, value);
    }
  }

  predicate Mentions(steps: seq<Step>, key: Bytes) { exists i | 0 <= i < |steps| :: steps[i].key == key }

  /** Steps that do not name a key do not change what is read for it. */
  lemma {:induction false} UnmentionedStays(before: seq<Step>, after: seq<Step>, key: Bytes)
    requires !Mentions(after, key)
    ensures Value(Applied(before + after), key) == Value(Applied(before), key)
    decreases |after|
  {
    hide Value, Changed;
    if after == [] {
      assert before + after == before;
    } else {
      var front, s := after[..|after| - 1], after[|after| - 1];
      assert (before + after)[..|before + after| - 1] == before + front;
      forall i | 0 <= i < |front| ensures front[i].key != key {
        assert front[i] == after[i];
      }
      UnmentionedStays(before, front, key);
      StepMeans(Applied(before + front), s, key);
    }
  }

  lemma {:induction false} UnmentionedIsAbsent(steps: seq<Step>, key: Bytes)
    requires !Mentions(steps, key)
    ensures Value(Applied(steps), key) == None
  {
    hide Value, Changed;
    UnmentionedStays([], steps, key);
    assert [] + steps == steps;
    NothingCounted(key);
  }

  /** The last step that puts a key decides its value. */
  lemma LastPutWins(before: seq<Step>, key: Bytes, value: Bytes, after: seq<Step>)
    requires !Mentions(after, key)
    ensures Value(Applied(before + [Put(key, value)] + after), key) == Some(value)
  {
    hide Value, Changed;
    var upTo := before + [Put(key, value)];
    assert upTo[..|upTo| - 1] == before;
    StepMeans(Applied(before), Put(key, value), key);
    UnmentionedStays(upTo, after, key);
  }

  // ----- list parameters

  lemma {:induction false} PartsOfConcat(a: Bytes, b: Bytes, sep: byte)
    ensures Parts(a + [sep] + b, sep) == Parts(a, sep) + Parts(b, sep)
    decreases |a|
  {
    hide Parts, IndexByte;
    var s, i := a + [sep] + b, IndexByte(a, sep);
    assert s[..i] == a[..i];
    IndexByteOf(s, sep, i);
    PartsStep(s, sep);
    PartsStep(a, sep);
    if i < |a| {
      assert s[i + 1..] == a[i + 1..] + [sep] + b;
      PartsOfConcat(a[i + 1..], b, sep);
      assert [a[..i]] + (Parts(a[i + 1..], sep) + Parts(b, sep)) == [a[..i]] + Parts(a[i + 1..], sep) + Parts(b, sep);
    } else {
      assert s[i + 1..] == b && a[..i] == a;
    }
  }

  lemma PartsStep(s: Bytes, sep: byte)
    ensures var i := IndexByte(s, sep); Parts(s, sep) == if i == |s| then [s] else [s[..i]] + Parts(s[i + 1..], sep)
  {
  }

  lemma OnePart(s: Bytes, sep: byte)
    requires sep !in s
    ensures Parts(s, sep) == [s]
  {
    IndexByteOf(s, sep, |s|);
  }

  lemma {:induction false} PartsOfJoin(words: seq<Bytes>, sep: byte)
    requires words != [] && forall i | 0 <= i < |words| :: sep !in words[i]
    ensures Parts(Join(words, [sep]), sep) == words
  {
    hide Parts;
    OnePart(words[0], sep);
    if |words| > 1 {
      PartsOfConcat(words[0], Join(words[1..], [sep]), sep);
      PartsOfJoin(words[1..], sep);
    }
  }

  /** Adding an entry: it is in the list afterwards, at the end if it was not there, and never twice by this step. */
  lemma EntryAdded(cur: Bytes, value: Bytes)
    requires COMMA !in value && cur != []
    ensures Parts(Joined(Some(cur), value), COMMA)
            == if value in Parts(cur, COMMA) then Parts(cur, COMMA) else Parts(cur, COMMA) + [value]
  {
    hide Parts;
    PartsOfConcat(cur, value, COMMA);
    OnePart(value, COMMA);
  }

  // ----- the builder

  ghost predicate IndexOk(ps: seq<Param>, index: map<Bytes, nat>) {
    && (forall k <- index :: index[k] == FirstOf(ps, k) && index[k] < |ps|)
    && (forall k | FirstOf(ps, k) < |ps| :: k in index)
  }

  lemma IndexAfterReplace(ps: seq<Param>, index: map<Bytes, nat>, i: nat, p: Param)
    requires IndexOk(ps, index) && i < |ps| && ps[i].key == p.key
    ensures IndexOk(ps[i := p], index)
  {
    hide FirstOf;
    var after := ps[i := p];
    forall k ensures FirstOf(after, k) == FirstOf(ps, k) {
      NoneBeforeFirst(ps, k);
      FirstIn(ps, k);
      FirstOfIs(after, k, FirstOf(ps, k));
    }
  }

  lemma FirstIn(ps: seq<Param>, key: Bytes)
    ensures FirstOf(ps, key) <= |ps| && (FirstOf(ps, key) < |ps| ==> ps[FirstOf(ps, key)].key == key)
  {
  }

  lemma IndexAfterAppend(ps: seq<Param>, index: map<Bytes, nat>, p: Param)
    requires IndexOk(ps, index)
    ensures IndexOk(ps + [p], if p.key in index then index else index[p.key := |ps|])
  {
    hide FirstOf;
    forall k ensures FirstOf(ps + [p], k) == if FirstOf(ps, k) < |ps| then FirstOf(ps, k)
                                             else if p.key == k then |ps| else |ps| + 1
    {
      FirstOfConcat(ps, [p], k);
      FirstIn(ps, k);
      FirstOfOne(p, k);
    }
  }

  lemma FirstOfOne(p: Param, key: Bytes)
    ensures FirstOf([p], key) == if p.key == key then 0 else 1
  {
    assert [p][1..] == [];
  }

  // ----- the text of the line

  const SPACE: byte := 32
  const TAB: byte := 9

  function Word(p: Param): Bytes { if p.value == [] then p.key else p.key + [EQUALS] + p.value }

  function Words(ps: seq<Param>): (w: seq<Bytes>)
    ensures |w| == |ps|
  {
    seq(|ps|, i requires 0 <= i < |ps| => Word(ps[i]))
  }

  class Builder {
    var params: seq<Param>
    var index: map<Bytes, nat>
    /** What was asked for so far. */
    ghost var steps: seq<Step>

    ghost predicate Valid()
      reads this
    {
      params == Applied(steps) && IndexOk(params, index)
    }

    constructor ()
      ensures Valid() && steps == []
    {
      params, index, steps := [], map[], [];
    }

    /** Write the value over the first copy of the key, or at the end. */
    method PutValue(key: Bytes, value: Bytes)
      requires IndexOk(params, index)
      modifies this`params, this`index
      ensures IndexOk(params, index) && params == SetParam(old(params), key, value)
    {
      hide IndexOk, FirstOf;
      IndexSays(params, index, key);
      if key in index {
        IndexAfterReplace(params, index, index[key], Param(key, value));
        params := params[index[key] := Param(key, value)];
        return;
      }
      IndexAfterAppend(params, index, Param(key, value));
      index := index[key := |params|];
      params := params + [Param(key, value)];
    }

    method Set(key: Bytes, value: Bytes)
      requires Valid()
      modifies this
      ensures Valid() && steps == old(steps) + [Put(key, value)]
    {
      hide IndexOk, SetParam;
      assert (steps + [Put(key, value)])[..|steps|] == steps;
      PutValue(key, value);
      steps := steps + [Put(key, value)];
    }

    method Add(key: Bytes, value: Bytes)
      requires Valid()
      modifies this
      ensures Valid() && steps == old(steps) + [Repeat(key, value)]
    {
      hide IndexOk, FirstOf;
      ghost var s := Repeat(key, value);
      assert (steps + [s])[..|steps|] == steps;
      steps := steps + [s];
      IndexAfterAppend(params, index, Param(key, value));
      params := params + [Param(key, value)];
      if key !in index {
        index := index[key := |params| - 1];
      }
    }

    method Flag(key: Bytes)
      requires Valid()
      modifies this
      ensures Valid() && steps == old(steps) + [Put(key, [])]
    {
      Set(key, []);
    }

    method SetIf(cond: bool, key: Bytes, value: Bytes)
      requires Valid()
      modifies this
      ensures Valid() && steps == old(steps) + if cond then [Put(key, value)] else []
    {
      if cond {
        Set(key, value);
      } else {
        assert steps + [] == steps;
      }
    }

    method Has(key: Bytes) returns (r: bool)
      requires Valid()
      ensures r <==> Value(params, key).Some?
    {
      hide IndexOk, FirstOf;
      IndexSays(params, index, key);
      r := key in index;
    }

    method Get(key: Bytes) returns (v: Option<Bytes>)
      requires Valid()
      ensures v == Value(params, key)
    {
      hide IndexOk, FirstOf;
      IndexSays(params, index, key);
      v := if key in index then Some(params[index[key]].value) else None;
    }

    method AppendCSV(key: Bytes, value: Bytes)
      requires Valid()
      modifies this
      ensures Valid() && steps == old(steps) + [Csv(key, value)]
    {
      hide IndexOk, FirstOf, Parts, SetParam;
      ghost var before, ps := steps, params;
      assert (before + [Csv(key, value)])[..|before|] == before;
      assert Applied(before + [Csv(key, value)]) == SetParam(ps, key, Joined(Value(ps, key), value));
      var cur := Get(key);
      if cur.None? || cur.value == [] {
        PutValue(key, value);
      } else {
        var parts := Parts(cur.value, COMMA);
        for i := 0 to |parts|
          invariant value !in parts[..i]
        {
          if parts[i] == value {
            assert value in parts;
            SetSame(ps, key, cur.value);
            steps := steps + [Csv(key, value)];
            return;
          }
          assert parts[..i + 1] == parts[..i] + [parts[i]];
        }
        assert parts[..|parts|] == parts;
        PutValue(key, cur.value + [COMMA] + value);
      }
      steps := before + [Csv(key, value)];
    }

    method String() returns (text: Bytes)
      ensures text == Join(Words(params), [SPACE])
    {
      hide Word;
      var parts: seq<Bytes> := [];
      for i := 0 to |params|
        invariant parts == Words(params)[..i]
      {
        parts := parts + [Word(params[i])];
      }
      assert parts == Words(params);
      text := Join(parts, [SPACE]);
    }
  }

  lemma IndexSays(ps: seq<Param>, index: map<Bytes, nat>, key: Bytes)
    requires IndexOk(ps, index)
    ensures FirstOf(ps, key) <= |ps| && (key in index <==> FirstOf(ps, key) < |ps|)
    ensures key in index ==> index[key] == FirstOf(ps, key) && ps[index[key]].key == key
  {
  }

  // ----- reading the line back

  /** The rendered line falls apart into the parameters again exactly when there are some and none holds a space. */
  lemma OneWordEach(ps: seq<Param>)
    ensures Parts(Join(Words(ps), [SPACE]), SPACE) == Words(ps)
            <==> ps != [] && forall i | 0 <= i < |ps| :: SPACE !in ps[i].key && SPACE !in ps[i].value
  {
    hide Parts, Word;
    forall i | 0 <= i < |ps| ensures SPACE in Word(ps[i]) <==> SPACE in ps[i].key || SPACE in ps[i].value {
      SpaceInWord(ps[i]);
    }
    var parts := Parts(Join(Words(ps), [SPACE]), SPACE);
    if parts == Words(ps) {
      forall i | 0 <= i < |ps| ensures SPACE !in ps[i].key && SPACE !in ps[i].value {
        assert SPACE !in parts[i];
      }
    } else if ps != [] && forall i | 0 <= i < |ps| :: SPACE !in ps[i].key && SPACE !in ps[i].value {
      PartsOfJoin(Words(ps), SPACE);
    }
  }

  lemma SpaceInWord(p: Param)
    ensures SPACE in Word(p) <==> SPACE in p.key || SPACE in p.value
  {
  }

  // ----- validation

  datatype Problem =
    | NoName
    | BlankInKey(key: Bytes)
    | BlankInValue(key: Bytes)
    | Repeated(key: Bytes, times: nat)
    | Missing(key: Bytes)
    | NotANumber
    | WrongCount(declared: int, actual: nat)
    | SerialLength(length: nat)

  predicate HasBlank(s: Bytes) { SPACE in s || TAB in s }

  function HwVersion(): Bytes { Ascii("syno_hw_version") }

  function Sn(): Bytes { Ascii("sn") }

  function NetifNum(): Bytes { Ascii("netif_num") }

  function MacKey(n: nat): Bytes { Ascii("mac") + Itoa(n) }

  predicate ParamProblem(q: Param, p: Problem) {
    if q.key == [] then p == NoName
    else (HasBlank(q.key) && p == BlankInKey(q.key)) || (HasBlank(q.value) && p == BlankInValue(q.key))
  }

  predicate RepeatProblem(ps: seq<Param>, p: Problem) {
    p.Repeated? && p.key != Console() && p.times == CountOf(ps, p.key) && p.times > 1
  }

  predicate MissingProblem(ps: seq<Param>, p: Problem) {
    p.Missing? && (p.key == HwVersion() || p.key == Sn() || p.key == NetifNum()) && Value(ps, p.key).None?
  }

  function LeadingDigits(s: Bytes): (d: Bytes)
    ensures AllDigits(d)
  {
    if s == [] || !IsDigit(s[0]) then [] else [s[0]] + LeadingDigits(s[1..])
  }

  function SkipBlanks(s: Bytes): Bytes { if s != [] && s[0] == SPACE then SkipBlanks(s[1..]) else s }

  /** fmt.Sscanf(s, "%d"): a sign and as many digits as follow. */
  function ScanInt(s: Bytes): Option<int> {
    var t := SkipBlanks(s);
    var signed := t != [] && (t[0] == MINUS || t[0] == PLUS);
    var d := LeadingDigits(if signed then t[1..] else t);
    if d == [] then None
    else
      var v: int := DigitsValue(d);
      var w := if signed && t[0] == MINUS then -v else v;
      if -0x8000_0000_0000_0000 <= w < 0x8000_0000_0000_0000 then Some(w) else None
  }

  /** How many of mac1 .. mac<n> are there. */
  function MacCount(ps: seq<Param>, n: nat): (r: nat)
    ensures r <= n
  {
    if n == 0 then 0 else MacCount(ps, n - 1) + if Value(ps, MacKey(n)).Some? then 1 else 0
  }

  predicate CardProblem(ps: seq<Param>, p: Problem) {
    var v := Value(ps, NetifNum());
    v.Some? && if ScanInt(v.value).None? then p == NotANumber
               else
                 var declared := ScanInt(v.value).value;
                 MacCount(ps, 8) != declared && p == WrongCount(declared, MacCount(ps, 8))
  }

  predicate SerialProblem(ps: seq<Param>, p: Problem) {
    var v := Value(ps, Sn());
    v.Some? && |v.value| != 13 && p == SerialLength(|v.value|)
  }

  predicate AnyParamProblem(ps: seq<Param>, p: Problem) { exists i | 0 <= i < |ps| :: ParamProblem(ps[i], p) }

  predicate IsProblem(ps: seq<Param>, p: Problem) {
    || AnyParamProblem(ps, p) || RepeatProblem(ps, p) || MissingProblem(ps, p) || CardProblem(ps, p)
    || SerialProblem(ps, p)
  }

  function Once(b: bool): nat { if b then 1 else 0 }

  /** How many of the parameters have the problem. */
  function TimesInParams(ps: seq<Param>, p: Problem): nat {
    if ps == [] then 0 else TimesInParams(ps[..|ps| - 1], p) + Once(ParamProblem(ps[|ps| - 1], p))
  }

  /** How often a problem is reported: for every parameter that has it, and otherwise once. */
  function Times(ps: seq<Param>, p: Problem): nat {
    TimesInParams(ps, p) + Once(RepeatProblem(ps, p)) + Once(MissingProblem(ps, p)) + Once(CardProblem(ps, p))
    + Once(SerialProblem(ps, p))
  }

  lemma {:induction false} InParamsIsAny(ps: seq<Param>, p: Problem)
    ensures TimesInParams(ps, p) > 0 <==> AnyParamProblem(ps, p)
  {
    hide ParamProblem;
    if ps != [] {
      var last := |ps| - 1;
      InParamsIsAny(ps[..last], p);
      if i :| 0 <= i < |ps| && ParamProblem(ps[i], p) {
        assert i < last ==> ParamProblem(ps[..last][i], p);
      }
    }
  }

  /** Reported at all exactly when it is a problem. */
  lemma TimesIsProblem(ps: seq<Param>, p: Problem)
    ensures Times(ps, p) > 0 <==> IsProblem(ps, p)
  {
    hide TimesInParams, AnyParamProblem, RepeatProblem, MissingProblem, CardProblem, SerialProblem;
    InParamsIsAny(ps, p);
  }

  function Seen(seen: map<Bytes, nat>, key: Bytes): nat { if key in seen then seen[key] else 0 }

  method CheckParam(q: Param) returns (problems: seq<Problem>)
    ensures forall p :: multiset(problems)[p] == Once(ParamProblem(q, p))
  {
    hide HasBlank;
    problems := [];
    if q.key == [] {
      return [NoName];
    }
    if HasBlank(q.key) {
      problems := problems + [BlankInKey(q.key)];
    }
    if HasBlank(q.value) {
      problems := problems + [BlankInValue(q.key)];
    }
  }

  method CheckParams(ps: seq<Param>) returns (problems: seq<Problem>, seen: map<Bytes, nat>)
    ensures forall p :: multiset(problems)[p] == TimesInParams(ps, p)
    ensures forall k :: Seen(seen, k) == CountOf(ps, k)
  {
    hide ParamProblem;
    problems, seen := [], map[];
    for i := 0 to |ps|
      invariant forall p :: multiset(problems)[p] == TimesInParams(ps[..i], p)
      invariant forall k :: Seen(seen, k) == CountOf(ps[..i], k)
    {
      var q := ps[i];
      assert ps[..i + 1][..i] == ps[..i] && ps[..i + 1][i] == q;
      seen := seen[q.key := Seen(seen, q.key) + 1];
      var more := CheckParam(q);
      problems := problems + more;
    }
    assert ps[..|ps|] == ps;
  }

  method CheckRepeats(ps: seq<Param>, seen: map<Bytes, nat>) returns (problems: seq<Problem>)
    requires forall k :: Seen(seen, k) == CountOf(ps, k)
    ensures forall p :: multiset(problems)[p] == Once(RepeatProblem(ps, p))
  {
    hide CountOf, Console;
    problems := [];
    var left := seen.Keys;
    while left != {}
      invariant left <= seen.Keys
      invariant forall p :: multiset(problems)[p] == Once(RepeatProblem(ps, p) && p.key in seen && p.key !in left)
      decreases |left|
    {
      var k :| k in left;
      assert Seen(seen, k) == CountOf(ps, k);
      left := left - {k};
      if k == Console() {
        continue;
      }
      if seen[k] > 1 {
        problems := problems + [Repeated(k, seen[k])];
      }
    }
    forall p | RepeatProblem(ps, p) ensures p.key in seen {
      assert Seen(seen, p.key) == CountOf(ps, p.key);
    }
  }

  /** The name a problem is listed under. */
  function KeyOf(p: Problem): Bytes {
    match p
    case NoName => Ascii("(empty)")
    case BlankInKey(k) => k
    case BlankInValue(k) => k
    case Repeated(k, _) => k
    case Missing(k) => k
    case NotANumber => NetifNum()
    case WrongCount(_, _) => NetifNum()
    case SerialLength(_) => Sn()
  }

  predicate SortedByKey(problems: seq<Problem>) {
    forall i, j | 0 <= i < j < |problems| :: !Less(KeyOf(problems[j]), KeyOf(problems[i]))
  }

  lemma NotLessChain(a: Bytes, b: Bytes, c: Bytes)
    requires !Less(b, a) && !Less(c, b)
    ensures !Less(c, a)
  {
    hide Less;
    LessIsStrict(a, b);
    LessIsStrict(b, c);
    LessIsStrict(a, c);
    if Less(a, b) && Less(b, c) {
      LessIsTransitive(a, b, c);
    }
  }

  method InsertByKey(sorted: seq<Problem>, p: Problem) returns (out: seq<Problem>)
    requires SortedByKey(sorted)
    ensures SortedByKey(out) && multiset(out) == multiset(sorted) + multiset{p}
  {
    hide Less, KeyOf, SortedByKey;
    var k: nat := |sorted|;
    while k > 0 && Less(KeyOf(p), KeyOf(sorted[k - 1]))
      invariant k <= |sorted| && forall j | k <= j < |sorted| :: !Less(KeyOf(sorted[j]), KeyOf(p))
    {
      LessIsStrict(KeyOf(p), KeyOf(sorted[k - 1]));
      k := k - 1;
    }
    forall j | 0 <= j < k ensures !Less(KeyOf(p), KeyOf(sorted[j])) {
      if j < k - 1 {
        assert !Less(KeyOf(sorted[k - 1]), KeyOf(sorted[j])) by { PairIsSorted(sorted, j, k - 1); }
        NotLessChain(KeyOf(sorted[j]), KeyOf(sorted[k - 1]), KeyOf(p));
      }
    }
    out := sorted[..k] + [p] + sorted[k..];
    InsertedIsSorted(sorted, p, k);
    InsertedHasAll(sorted, p, k);
  }

  lemma PairIsSorted(sorted: seq<Problem>, i: nat, j: nat)
    requires SortedByKey(sorted) && i < j < |sorted|
    ensures !Less(KeyOf(sorted[j]), KeyOf(sorted[i]))
  {
    hide Less, KeyOf;
  }

  lemma InsertedHasAll(sorted: seq<Problem>, p: Problem, k: nat)
    requires k <= |sorted|
    ensures multiset(sorted[..k] + [p] + sorted[k..]) == multiset(sorted) + multiset{p}
  {
    assert sorted == sorted[..k] + sorted[k..];
  }

  lemma InsertedIsSorted(sorted: seq<Problem>, p: Problem, k: nat)
    requires SortedByKey(sorted) && k <= |sorted|
    requires forall j | 0 <= j < k :: !Less(KeyOf(p), KeyOf(sorted[j]))
    requires forall j | k <= j < |sorted| :: !Less(KeyOf(sorted[j]), KeyOf(p))
    ensures SortedByKey(sorted[..k] + [p] + sorted[k..])
  {
    hide Less, KeyOf;
    var out := sorted[..k] + [p] + sorted[k..];
    forall i, j | 0 <= i < j < |out| ensures !Less(KeyOf(out[j]), KeyOf(out[i])) {
      InsertedAt(sorted, p, k, i);
      InsertedAt(sorted, p, k, j);
    }
  }

  /** Sorted by key; how problems with one key are ordered among themselves is left open. */
  method SortByKey(problems: seq<Problem>) returns (sorted: seq<Problem>)
    ensures SortedByKey(sorted) && multiset(sorted) == multiset(problems)
  {
    hide SortedByKey;
    sorted := [];
    assert SortedByKey(sorted) by { NothingToSort(); }
    for i := 0 to |problems|
      invariant SortedByKey(sorted) && multiset(sorted) == multiset(problems[..i])
    {
      assert problems[..i + 1] == problems[..i] + [problems[i]];
      sorted := InsertByKey(sorted, problems[i]);
    }
    assert problems[..|problems|] == problems;
  }

  lemma NothingToSort()
    ensures SortedByKey([])
  {
  }

  /** Exactly the problems the line has, each as often as it is there, sorted by key. */
  method Validate(b: Builder) returns (problems: seq<Problem>)
    requires b.Valid()
    ensures SortedByKey(problems)
    ensures forall p :: multiset(problems)[p] == Times(b.params, p)
    ensures forall p :: p in problems <==> IsProblem(b.params, p)
  {
    hide Value, CountOf, Applied, IndexOk, ParamProblem, RepeatProblem, MissingProblem, CardProblem, SerialProblem,
        TimesInParams, SortedByKey, IsProblem;
    var found, seen := CheckParams(b.params);
    var repeats := CheckRepeats(b.params, seen);
    var missing := CheckMissing(b);
    var cards := CheckCards(b);
    var serial := CheckSerial(b);
    problems := SortByKey(found + repeats + missing + cards + serial);
    forall p ensures p in problems <==> IsProblem(b.params, p) {
      assert p in problems <==> multiset(problems)[p] > 0;
      TimesIsProblem(b.params, p);
    }
  }

  method CheckMissing(b: Builder) returns (problems: seq<Problem>)
    requires b.Valid()
    ensures forall p :: multiset(problems)[p] == Once(MissingProblem(b.params, p))
  {
    hide Value, HwVersion, Sn, NetifNum, Applied, IndexOk;
    problems := [];
    var required := [HwVersion(), Sn(), NetifNum()];
    RequiredDiffer();
    for i := 0 to |required|
      invariant forall p :: multiset(problems)[p] ==
                            Once(p.Missing? && p.key in required[..i] && Value(b.params, p.key).None?)
    {
      var has := b.Has(required[i]);
      assert required[..i + 1] == required[..i] + [required[i]];
      if !has {
        problems := problems + [Missing(required[i])];
      }
    }
    assert required[..|required|] == required;
  }

  lemma RequiredDiffer()
    ensures HwVersion() != Sn() && Sn() != NetifNum() && HwVersion() != NetifNum()
  {
    assert |HwVersion()| == 15 && |Sn()| == 2 && |NetifNum()| == 9;
  }

  method CheckCards(b: Builder) returns (problems: seq<Problem>)
    requires b.Valid()
    ensures forall p :: multiset(problems)[p] == Once(CardProblem(b.params, p))
  {
    hide Value, NetifNum, MacKey, ScanInt, Applied, IndexOk;
    problems := [];
    var v := b.Get(NetifNum());
    if v.Some? {
      var declared := ScanInt(v.value);
      if declared.None? {
        problems := [NotANumber];
      } else {
        var actual := 0;
        for i := 1 to 9
          invariant actual == MacCount(b.params, i - 1)
        {
          var has := b.Has(MacKey(i));
          if has {
            actual := actual + 1;
          }
        }
        if actual != declared.value {
          problems := [WrongCount(declared.value, actual)];
        }
      }
    }
  }

  method CheckSerial(b: Builder) returns (problems: seq<Problem>)
    requires b.Valid()
    ensures forall p :: multiset(problems)[p] == Once(SerialProblem(b.params, p))
  {
    hide Value, Sn, Applied, IndexOk;
    problems := [];
    var v := b.Get(Sn());
    if v.Some? && |v.value| != 13 {
      problems := [SerialLength(|v.value|)];
    }
  }
}
