/** A NOP token between two tokens of the structure block does not change what is read. */
module NopTokens {
  import opened GoStrings
  import opened FlatTree

  /** The parser comes to stand at pos between two tokens. */
  predicate Passes(data: Bytes, strs: Bytes, s: State, pos: nat)
    decreases Left(data, s.pos)
  {
    s.pos == pos || (Step(data, strs, s).Next? && Passes(data, strs, Step(data, strs, s).state, pos))
  }

  function WithNop(data: Bytes, pos: nat): (b: Bytes)
    requires pos <= |data|
    ensures |b| == |data| + 4
  {
    data[..pos] + U32Bytes(NOP) + data[pos..]
  }

  lemma {:induction false} PassesForward(data: Bytes, strs: Bytes, s: State, pos: nat)
    requires Passes(data, strs, s, pos)
    ensures s.pos <= pos
    decreases Left(data, s.pos)
  {
    hide Step;
    if s.pos != pos {
      PassesForward(data, strs, Step(data, strs, s).state, pos);
    }
  }

  // ----- after the inserted token everything stands four bytes later

  ghost predicate Shifted(data: Bytes, data': Bytes, pos: nat) {
    && |data'| == |data| + 4
    && forall i | pos <= i < |data| :: data'[i + 4] == data[i]
  }

  lemma {:induction false} NulFromShifts(data: Bytes, data': Bytes, pos: nat, i: nat)
    requires Shifted(data, data', pos) && pos <= i <= |data|
    ensures NulFrom(data', i + 4) == NulFrom(data, i) + 4
    decreases |data| - i
  {
    if i < |data| && data[i] != 0 {
      NulFromShifts(data, data', pos, i + 1);
    }
  }

  lemma U32Shifts(data: Bytes, data': Bytes, pos: nat, i: nat)
    requires Shifted(data, data', pos) && pos <= i && i + 4 <= |data|
    ensures U32At(data', i + 4) == U32At(data, i)
  {
    assert data'[i + 4] == data[i] && data'[i + 1 + 4] == data[i + 1];
    assert data'[i + 2 + 4] == data[i + 2] && data'[i + 3 + 4] == data[i + 3];
  }

  lemma SliceShifts(data: Bytes, data': Bytes, pos: nat, i: nat, j: nat)
    requires Shifted(data, data', pos) && pos <= i <= j <= |data|
    ensures data'[i + 4..j + 4] == data[i..j]
  {
    forall k | 0 <= k < j - i ensures data'[i + 4..j + 4][k] == data[i..j][k] {
      assert data'[(i + k) + 4] == data[i + k];
    }
  }

  lemma PropShifts(data: Bytes, data': Bytes, strs: Bytes, pos: nat, p: nat)
    requires Shifted(data, data', pos) && pos <= p
    ensures PropAt(data', strs, p + 4) == PropAt(data, strs, p)
  {
    hide U32At, StringAt;
    if p + 8 <= |data| {
      U32Shifts(data, data', pos, p);
      U32Shifts(data, data', pos, p + 4);
      var end := p + 8 + U32At(data, p);
      if end <= |data| {
        SliceShifts(data, data', pos, p + 8, end);
        assert data'[p + 4 + 8..p + 4 + 8 + U32At(data, p)] == data[p + 8..end];
      }
    }
  }

  lemma Align4Later(n: nat)
    ensures Align4(n + 4) == Align4(n) + 4
  {
  }

  function Later(s: State): State { s.(pos := s.pos + 4) }

  function LaterOutcome(o: Outcome): Outcome {
    if o.Next? then Next(Later(o.state)) else o
  }

  lemma StepShifts(data: Bytes, data': Bytes, strs: Bytes, pos: nat, s: State)
    requires Shifted(data, data', pos) && pos <= s.pos
    ensures Step(data', strs, Later(s)) == LaterOutcome(Step(data, strs, s))
  {
    hide U32At, NulFrom, PropAt, Align4, AddChild, AddProp;
    if s.pos + 4 <= |data| {
      U32Shifts(data, data', pos, s.pos);
      match U32At(data, s.pos)
      case 1 => BeginShifts(data, data', strs, pos, s);
      case 3 => PropertyShifts(data, data', strs, pos, s);
      case _ =>
    }
  }

  lemma BeginShifts(data: Bytes, data': Bytes, strs: Bytes, pos: nat, s: State)
    requires Shifted(data, data', pos) && pos <= s.pos && s.pos + 4 <= |data|
    requires U32At(data, s.pos) == BEGIN_NODE && U32At(data', s.pos + 4) == BEGIN_NODE
    ensures Step(data', strs, Later(s)) == LaterOutcome(Step(data, strs, s))
  {
    hide U32At, NulFrom, PropAt, Align4, Attach, AddProp;
    var p, end := s.pos + 4, NulFrom(data, s.pos + 4);
    NulFromShifts(data, data', pos, p);
    SliceShifts(data, data', pos, p, end);
    Align4Later(end + 1);
  }

  lemma PropertyShifts(data: Bytes, data': Bytes, strs: Bytes, pos: nat, s: State)
    requires Shifted(data, data', pos) && pos <= s.pos && s.pos + 4 <= |data|
    requires U32At(data, s.pos) == PROP && U32At(data', s.pos + 4) == PROP
    ensures Step(data', strs, Later(s)) == LaterOutcome(Step(data, strs, s))
  {
    hide U32At, NulFrom, PropAt, Align4, Attach, AddProp;
    var prop := PropAt(data, strs, s.pos + 4);
    PropShifts(data, data', strs, pos, s.pos + 4);
    if prop.Ok? {
      Align4Later(s.pos + 4 + 8 + |prop.value.value|);
    }
  }

  lemma {:induction false} RunShifts(data: Bytes, data': Bytes, strs: Bytes, pos: nat, s: State)
    requires Shifted(data, data', pos) && pos <= s.pos
    ensures Run(data', strs, Later(s)) == Run(data, strs, s)
    decreases Left(data, s.pos)
  {
    hide Step, Shifted;
    StepShifts(data, data', strs, pos, s);
    if Step(data, strs, s).Next? {
      RunShifts(data, data', strs, pos, Step(data, strs, s).state);
    }
  }

  // ----- before it nothing moves

  ghost predicate SameBefore(data: Bytes, data': Bytes, pos: nat) {
    && pos <= |data| <= |data'|
    && forall i | 0 <= i < pos :: data'[i] == data[i]
  }

  lemma NulFromSame(data: Bytes, data': Bytes, pos: nat, i: nat)
    requires SameBefore(data, data', pos) && i <= |data| && NulFrom(data, i) < pos
    ensures NulFrom(data', i) == NulFrom(data, i)
  {
    var end := NulFrom(data, i);
    assert data'[i..end] == data[i..end];
    NulFromUnique(data', i, end);
  }

  lemma PropSame(data: Bytes, data': Bytes, strs: Bytes, pos: nat, p: nat)
    requires SameBefore(data, data', pos)
    requires PropAt(data, strs, p).Ok? && p + 8 + |PropAt(data, strs, p).value.value| <= pos
    ensures PropAt(data', strs, p) == PropAt(data, strs, p)
  {
    hide StringAt;
    var end := p + 8 + |PropAt(data, strs, p).value.value|;
    assert data'[p + 8..end] == data[p + 8..end];
  }

  lemma StepSame(data: Bytes, data': Bytes, strs: Bytes, pos: nat, s: State)
    requires SameBefore(data, data', pos)
    requires Step(data, strs, s).Next? && Step(data, strs, s).state.pos <= pos
    ensures Step(data', strs, s) == Step(data, strs, s)
  {
    hide NulFrom, PropAt;
    var p := s.pos + 4;
    assert U32At(data', s.pos) == U32At(data, s.pos);
    match U32At(data, s.pos)
    case 1 =>
      var end := NulFrom(data, p);
      NulFromSame(data, data', pos, p);
      assert data'[p..end] == data[p..end];
    case 3 =>
      PropSame(data, data', strs, pos, p);
    case _ =>
  }

  lemma NopIsSkipped(data: Bytes, strs: Bytes, s: State)
    requires s.pos <= |data|
    ensures Run(WithNop(data, s.pos), strs, s) == Run(data, strs, s)
  {
    hide Run, U32At, NulFrom, PropAt;
    var data' := WithNop(data, s.pos);
    assert data'[s.pos..s.pos + 4] == U32Bytes(NOP);
    U32ReadsBack(data', s.pos, NOP);
    RunUnfold(data', strs, s);
    RunShifts(data, data', strs, s.pos, s);
  }

  lemma RunUnfold(data: Bytes, strs: Bytes, s: State)
    ensures Step(data, strs, s).Next? ==> Run(data, strs, s) == Run(data, strs, Step(data, strs, s).state)
  {
    hide Step;
  }

  lemma {:induction false} NopInserted(data: Bytes, strs: Bytes, s: State, pos: nat)
    requires pos <= |data| && Passes(data, strs, s, pos)
    ensures Run(WithNop(data, pos), strs, s) == Run(data, strs, s)
    decreases Left(data, s.pos)
  {
    hide Step, Run;
    if s.pos == pos {
      NopIsSkipped(data, strs, s);
    } else {
      var next := Step(data, strs, s).state;
      PassesForward(data, strs, next, pos);
      StepSame(data, WithNop(data, pos), strs, pos, s);
      RunUnfold(data, strs, s);
      RunUnfold(WithNop(data, pos), strs, s);
      NopInserted(data, strs, next, pos);
    }
  }

  /** Wherever the parser stands between tokens, a NOP put there leaves the result as it was. */
  lemma NopChangesNothing(data: Bytes, strs: Bytes, pos: nat)
    requires pos <= |data| && Passes(data, strs, START, pos)
    ensures Run(WithNop(data, pos), strs, START) == Run(data, strs, START)
  {
    hide Run, Passes;
    NopInserted(data, strs, START, pos);
  }
}
