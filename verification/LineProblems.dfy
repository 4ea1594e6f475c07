/** Which command lines are reported, with keys and lengths written out. */
module LineProblems {
  import opened GoStrings
  import opened BuildChecks
  import opened BuildLine
  import opened CommandLine

  function Read(ps: seq<Param>, key: string): Option<Bytes> { if IsText(key) then Value(ps, Ascii(key)) else None }

  predicate Is(key: Bytes, text: string) { IsText(text) && key == Ascii(text) }

  /** A space or a tab. */
  predicate Blank(s: Bytes) { exists i | 0 <= i < |s| :: s[i] == 32 || s[i] == 9 }

  /** The cards of a line: the numbers from 1 to 8 whose address is there. */
  function Cards(ps: seq<Param>): set<nat> { set n: nat | 1 <= n <= 8 && Value(ps, Ascii("mac") + Itoa(n)).Some? }

  /** What each report means. */
  predicate Reported(ps: seq<Param>, p: Problem) {
    match p
    case NoName => exists i | 0 <= i < |ps| :: ps[i].key == []
    case BlankInKey(k) => Blank(k) && exists i | 0 <= i < |ps| :: ps[i].key == k
    case BlankInValue(k) => k != [] && exists i | 0 <= i < |ps| :: ps[i].key == k && Blank(ps[i].value)
    case Repeated(k, n) => !Is(k, "console") && n > 1 && n == CountOf(ps, k)
    case Missing(k) => (Is(k, "syno_hw_version") || Is(k, "sn") || Is(k, "netif_num")) && Value(ps, k).None?
    case NotANumber => Read(ps, "netif_num").Some? && ScanInt(Read(ps, "netif_num").value).None?
    case WrongCount(d, a) =>
      && Read(ps, "netif_num").Some? && ScanInt(Read(ps, "netif_num").value) == Some(d)
      && a == |Cards(ps)| && a != d
    case SerialLength(n) => Read(ps, "sn").Some? && |Read(ps, "sn").value| == n && n != 13
  }

  lemma TextsAre(ps: seq<Param>)
    ensures Read(ps, "sn") == Value(ps, Sn()) && Read(ps, "netif_num") == Value(ps, NetifNum())
  {
    hide Value;
  }

  lemma KeysAre(k: Bytes)
    ensures Is(k, "console") <==> k == Console()
    ensures Is(k, "syno_hw_version") <==> k == HwVersion()
    ensures Is(k, "sn") <==> k == Sn()
    ensures Is(k, "netif_num") <==> k == NetifNum()
  {
  }

  lemma BlankIs(s: Bytes)
    ensures Blank(s) <==> HasBlank(s)
  {
  }

  function CardsUpTo(ps: seq<Param>, m: nat): set<nat> { set n: nat | 1 <= n <= m && Value(ps, MacKey(n)).Some? }

  lemma {:induction false} CardsCounted(ps: seq<Param>, m: nat)
    ensures MacCount(ps, m) == |CardsUpTo(ps, m)|
    decreases m
  {
    hide Value, MacKey;
    if m == 0 {
      assert CardsUpTo(ps, 0) == {};
    } else {
      CardsCounted(ps, m - 1);
      assert CardsUpTo(ps, m)
          == if Value(ps, MacKey(m)).Some? then CardsUpTo(ps, m - 1) + {m} else CardsUpTo(ps, m - 1);
    }
  }

  lemma CardsAre(ps: seq<Param>)
    ensures MacCount(ps, 8) == |Cards(ps)|
  {
    hide Value, Itoa;
    CardsCounted(ps, 8);
    assert Cards(ps) == CardsUpTo(ps, 8);
  }

  lemma InParams(ps: seq<Param>, p: Problem)
    ensures AnyParamProblem(ps, p) <==> (p.NoName? || p.BlankInKey? || p.BlankInValue?) && Reported(ps, p)
  {
    hide Value, CountOf, Is, Read, Cards, HasBlank, ScanInt;
    forall i | 0 <= i < |ps| ensures Blank(ps[i].key) <==> HasBlank(ps[i].key) {
      BlankIs(ps[i].key);
    }
    forall i | 0 <= i < |ps| ensures Blank(ps[i].value) <==> HasBlank(ps[i].value) {
      BlankIs(ps[i].value);
    }
    if AnyParamProblem(ps, p) {
      var i :| 0 <= i < |ps| && ParamProblem(ps[i], p);
    }
    if Reported(ps, p) && (p.NoName? || p.BlankInKey? || p.BlankInValue?) {
      var i :| 0 <= i < |ps| && ParamProblem(ps[i], p);
    }
  }

  /** The validation reports exactly these. */
  lemma ProblemsAre(ps: seq<Param>, p: Problem)
    ensures IsProblem(ps, p) <==> Reported(ps, p)
  {
    hide Value, CountOf, Is, Read, Cards, ScanInt, MacCount, AnyParamProblem, Console, HwVersion, Sn, NetifNum;
    InParams(ps, p);
    TextsAre(ps);
    CardsAre(ps);
    if p.Repeated? {
      KeysAre(p.key);
    } else if p.Missing? {
      KeysAre(p.key);
    }
  }

  /** A count reads back as the number that was written, unless it does not fit the 64 bits of an int. */
  lemma CountIsRead(n: int)
    ensures ScanInt(IntText(n))
            == if -0x8000_0000_0000_0000 <= n < 0x8000_0000_0000_0000 then Some(n) else None
  {
    hide Itoa, DigitsValue, LeadingDigits;
    var digits := Itoa(if n < 0 then -n else n);
    ItoaReadsBack(if n < 0 then -n else n);
    AllLeadingDigits(digits);
    assert IsDigit(digits[0]);
    assert SkipBlanks(IntText(n)) == IntText(n);
    assert n < 0 ==> IntText(n)[1..] == digits;
  }
}
