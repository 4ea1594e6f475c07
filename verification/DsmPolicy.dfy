/** Settings from three layers, through a list file, into an installed configuration file:
    internal/dsmconf/policy.go. */
module DsmPolicy {
  import opened GoStrings
  import opened DsmConf
  import opened Quoting

  type Pairs = seq<(Bytes, Bytes)>

  // ----- the layers

  function LocalFeed(scheme: Bytes, path: Bytes): Bytes {
    scheme + Ascii("://127.0.0.1/") + Ascii("autoupdate/") + path
  }

  /** What a DSM built by the loader needs. */
  function LoaderPolicy(): map<Bytes, Bytes> {
    map[
      Ascii("support_disk_") + Ascii("compatibility") := Ascii("yes"),
      Ascii("rss_server") := LocalFeed(Ascii("http"), Ascii("genRSS.php")),
      Ascii("rss_server_ssl") := LocalFeed(Ascii("https"), Ascii("genRSS.php")),
      Ascii("rss_server_v2") := LocalFeed(Ascii("http"), Ascii("v2/getList"))
    ]
  }

  /** The user's value, else the platform's, else the policy's. */
  function Layered(platform: map<Bytes, Bytes>, user: map<Bytes, Bytes>, key: Bytes): Option<Bytes> {
    if key in user then Some(user[key])
    else if key in platform then Some(platform[key])
    else if key in LoaderPolicy() then Some(LoaderPolicy()[key])
    else None
  }

  function ValueOf(kv: map<Bytes, Bytes>, key: Bytes): Option<Bytes> { if key in kv then Some(kv[key]) else None }

  /** Copying one layer over another, its entries in any order. */
  method Overlay(below: map<Bytes, Bytes>, layer: map<Bytes, Bytes>) returns (out: map<Bytes, Bytes>)
    ensures forall k :: ValueOf(out, k) == if k in layer then Some(layer[k]) else ValueOf(below, k)
  {
    out := below;
    var left := layer.Keys;
    while left != {}
      invariant left <= layer.Keys
      invariant forall k :: ValueOf(out, k) == if k in layer && k !in left then Some(layer[k]) else ValueOf(below, k)
      decreases |left|
    {
      var k :| k in left;
      out := out[k := layer[k]];
      left := left - {k};
    }
  }

  method Settings(platform: map<Bytes, Bytes>, user: map<Bytes, Bytes>) returns (out: map<Bytes, Bytes>)
    ensures forall k :: ValueOf(out, k) == Layered(platform, user, k)
  {
    hide LoaderPolicy;
    var start: map<Bytes, Bytes> := map[];
    out := Overlay(start, LoaderPolicy());
    out := Overlay(out, platform);
    out := Overlay(out, user);
  }

  // ----- the order of the keys

  predicate Ascending(keys: seq<Bytes>) { forall i, j | 0 <= i < j < |keys| :: Less(keys[i], keys[j]) }

  /** The keys of a map in the order a sorted listing has. */
  ghost predicate KeyOrder(order: seq<Bytes>, keys: set<Bytes>) {
    Ascending(order) && forall k :: k in order <==> k in keys
  }

  /** There is only one such order. */
  lemma {:induction false} KeyOrderIsUnique(a: seq<Bytes>, b: seq<Bytes>)
    requires Ascending(a) && Ascending(b) && forall k :: k in a <==> k in b
    ensures a == b
    decreases |a|
  {
    hide Less;
    if a != [] {
      assert a[0] in b && b[0] in a;
      var i :| 0 <= i < |b| && b[i] == a[0];
      var j :| 0 <= j < |a| && a[j] == b[0];
      LessIsStrict(a[0], b[0]);
      forall k ensures k in a[1..] <==> k in b[1..] {
        RestOf(a, k);
        RestOf(b, k);
      }
      KeyOrderIsUnique(a[1..], b[1..]);
      assert a == [a[0]] + a[1..] && b == [b[0]] + b[1..];
    } else if b != [] {
      HeadIsIn(b);
    }
  }

  lemma HeadIsIn(b: seq<Bytes>)
    requires b != []
    ensures b[0] in b
  {
  }

  lemma RestOf(a: seq<Bytes>, k: Bytes)
    requires a != [] && Ascending(a)
    ensures k in a[1..] <==> k in a && k != a[0]
  {
    hide Less;
    if k in a[1..] {
      var i :| 1 <= i < |a| && a[i] == k;
      LessIsStrict(a[0], k);
    }
  }

  /** Put a new key in its place. */
  method InsertKey(order: seq<Bytes>, key: Bytes) returns (out: seq<Bytes>)
    requires Ascending(order) && key !in order
    ensures Ascending(out) && forall k :: k in out <==> k in order || k == key
  {
    hide Less;
    var i := 0;
    while i < |order| && Less(order[i], key)
      invariant 0 <= i <= |order| && forall j | 0 <= j < i :: Less(order[j], key)
    {
      i := i + 1;
    }
    forall j | i <= j < |order| ensures Less(key, order[j]) {
      LessIsStrict(key, order[i]);
      if i < j {
        LessIsTransitive(key, order[i], order[j]);
      }
    }
    out := order[..i] + [key] + order[i..];
    assert order == order[..i] + order[i..];
  }

  // ----- the list file

  function Entry(key: Bytes, value: Bytes): Bytes { key + [EQUALS] + value }

  function Rendered(order: seq<Bytes>, kv: map<Bytes, Bytes>): Bytes
    requires forall k | k in order :: k in kv
    decreases |order|
  {
    if order == [] then [] else Entry(order[0], kv[order[0]]) + [NL] + Rendered(order[1..], kv)
  }

  function PairsOf(order: seq<Bytes>, kv: map<Bytes, Bytes>): (r: Pairs)
    requires forall k | k in order :: k in kv
    ensures |r| == |order|
    ensures forall i | 0 <= i < |r| :: r[i] == (order[i], kv[order[i]])
    decreases |order|
  {
    if order == [] then [] else [(order[0], kv[order[0]])] + PairsOf(order[1..], kv)
  }

  lemma {:induction false} RenderedOneMore(order: seq<Bytes>, kv: map<Bytes, Bytes>, n: nat)
    requires n < |order| && forall k | k in order :: k in kv
    ensures Rendered(order[..n + 1], kv) == Rendered(order[..n], kv) + (Entry(order[n], kv[order[n]]) + [NL])
    decreases n
  {
    hide Entry;
    if n > 0 {
      RenderedOneMore(order[1..], kv, n - 1);
      assert order[1..][..n - 1] == order[..n][1..];
    }
    assert order[1..][..n] == order[..n + 1][1..];
  }

  /** The keys of a map, sorted. */
  method SortKeys(keys: set<Bytes>) returns (order: seq<Bytes>)
    ensures KeyOrder(order, keys)
  {
    hide Less, Ascending;
    NothingInOrder();
    order := [];
    var left := keys;
    while left != {}
      invariant left <= keys && Ascending(order)
      invariant forall k :: k in order <==> k in keys && k !in left
      decreases |left|
    {
      var k :| k in left;
      order := InsertKey(order, k);
      left := left - {k};
    }
  }

  /** The rendered list does not depend on the order in which the map gives its keys. */
  method RenderList(kv: map<Bytes, Bytes>) returns (text: Bytes, ghost order: seq<Bytes>)
    ensures KeyOrder(order, kv.Keys) && text == Rendered(order, kv)
    ensures forall other | KeyOrder(other, kv.Keys) :: text == Rendered(other, kv)
  {
    hide Less, Rendered, Entry, Ascending;
    var keys := SortKeys(kv.Keys);
    order := keys;
    text := [];
    NothingRendered(keys, kv);
    for i := 0 to |keys|
      invariant text == Rendered(keys[..i], kv)
    {
      RenderedOneMore(keys, kv, i);
      text := text + (Entry(keys[i], kv[keys[i]]) + [NL]);
    }
    assert keys[..|keys|] == keys;
    forall other | KeyOrder(other, kv.Keys) ensures text == Rendered(other, kv) {
      KeyOrderIsUnique(other, keys);
    }
  }

  lemma NothingInOrder()
    ensures Ascending([])
  {
  }

  lemma NothingRendered(order: seq<Bytes>, kv: map<Bytes, Bytes>)
    requires forall k | k in order :: k in kv
    ensures Rendered(order[..0], kv) == []
  {
  }

  function ParseEntry(line: Bytes): Option<(Bytes, Bytes)> {
    var s := TrimSpace(line);
    if s == [] || s[0] == HASH then None
    else
      var i := IndexByte(s, EQUALS);
      if i == 0 || i == |s| then None else Some((s[..i], s[i + 1..]))
  }

  function ParseLines(lines: seq<Bytes>): Pairs {
    if lines == [] then []
    else
      var e := ParseEntry(lines[0]);
      (if e.Some? then [e.value] else []) + ParseLines(lines[1..])
  }

  method ParseList(raw: Bytes) returns (out: Pairs)
    ensures out == ParseLines(Lines(raw))
  {
    hide ParseEntry;
    out := [];
    var lines := Lines(raw);
    for i := 0 to |lines|
      invariant out + ParseLines(lines[i..]) == ParseLines(lines)
    {
      var e := ParseEntry(lines[i]);
      ghost var before := out;
      if e.Some? {
        out := out + [e.value];
      }
      assert lines[i..][1..] == lines[i + 1..];
      assert out + ParseLines(lines[i + 1..]) == before + ParseLines(lines[i..]);
    }
  }

  /** A pair that a line of the list can carry. */
  predicate ListOk(key: Bytes, value: Bytes) {
    && key != [] && key[0] != HASH && SpaceAt(key) == 0 && EQUALS !in key && NL !in key
    && NL !in value && SpaceBefore(value) == 0
  }

  lemma EntryEnds(key: Bytes, value: Bytes)
    requires key != []
    ensures SpaceAt(Entry(key, value)) == SpaceAt(key)
    ensures SpaceBefore(Entry(key, value)) > 0 <==> SpaceBefore(value) > 0
  {
    hide SpaceAt, SpaceBefore;
    assert Entry(key, value) == key + ([EQUALS] + value);
    SpaceOfConcat(key, [EQUALS] + value);
    if value == [] {
      NothingBlank();
      AsciiEnds(Entry(key, value));
    } else {
      SpaceBeforeOfConcat(key + [EQUALS], value);
    }
  }

  lemma EntryReadsBack(key: Bytes, value: Bytes)
    requires ListOk(key, value)
    ensures ParseEntry(Entry(key, value)) == Some((key, value)) && NL !in Entry(key, value)
  {
    hide TrimSpace, SpaceAt, SpaceBefore;
    var s, i := Entry(key, value), |key|;
    EntryEnds(key, value);
    TrimmedIsSame(s);
    assert s[..i] == key && s[i + 1..] == value;
    IndexByteOf(s, EQUALS, i);
  }

  lemma ParsedEntryOk(line: Bytes)
    requires NL !in line
    ensures ParseEntry(line).Some? ==> ListOk(ParseEntry(line).value.0, ParseEntry(line).value.1)
  {
    hide TrimSpace, SpaceAt, SpaceBefore;
    var s := TrimSpace(line);
    TrimmedEnds(line);
    TrimKeepsBytes(line, NL);
    if ParseEntry(line).Some? {
      var i := IndexByte(s, EQUALS);
      var key, value := s[..i], s[i + 1..];
      assert s == Entry(key, value);
      EntryEnds(key, value);
      assert EQUALS !in key && NL !in value;
    }
  }

  lemma {:induction false} ParsedOk(lines: seq<Bytes>)
    requires forall i | 0 <= i < |lines| :: NL !in lines[i]
    ensures forall p | p in ParseLines(lines) :: ListOk(p.0, p.1)
  {
    hide ParseEntry, ListOk;
    if lines != [] {
      ParsedEntryOk(lines[0]);
      ParsedOk(lines[1..]);
    }
  }

  lemma {:induction false} RenderedParses(order: seq<Bytes>, kv: map<Bytes, Bytes>)
    requires forall k | k in order :: k in kv && ListOk(k, kv[k])
    ensures ParseLines(Lines(Rendered(order, kv))) == PairsOf(order, kv)
    decreases |order|
  {
    hide ParseEntry, ListOk, Lines, Entry;
    if order == [] {
      OneLine([]);
      BlankParses();
    } else {
      var k, rest := order[0], Rendered(order[1..], kv);
      EntryReadsBack(k, kv[k]);
      OneLine(Entry(k, kv[k]));
      LinesOfConcat(Entry(k, kv[k]), rest);
      var lines := [Entry(k, kv[k])] + Lines(rest);
      assert lines[1..] == Lines(rest);
      RenderedParses(order[1..], kv);
    }
  }

  lemma BlankParses()
    ensures ParseLines([[]]) == []
  {
    hide ParseEntry;
    BlankEntry();
    var blank: seq<Bytes> := [[]];
    assert blank[1..] == [];
  }

  lemma BlankEntry()
    ensures ParseEntry([]) == None
  {
  }

  /** The list reads back as written exactly when each of its pairs fits on a line of it. */
  lemma ListReadsBackExactly(order: seq<Bytes>, kv: map<Bytes, Bytes>)
    requires forall k | k in order :: k in kv
    ensures ParseLines(Lines(Rendered(order, kv))) == PairsOf(order, kv) <==> forall k | k in order :: ListOk(k, kv[k])
  {
    hide Lines, Rendered, ListOk, ParseLines;
    var parsed := ParseLines(Lines(Rendered(order, kv)));
    ParsedOk(Lines(Rendered(order, kv)));
    if parsed == PairsOf(order, kv) {
      forall k | k in order ensures ListOk(k, kv[k]) {
        var i :| 0 <= i < |order| && order[i] == k;
        assert parsed[i] == (k, kv[k]);
        assert parsed[i] in parsed;
      }
    } else if forall k | k in order :: ListOk(k, kv[k]) {
      RenderedParses(order, kv);
    }
  }

  // ----- writing a list into a file

  predicate KeysOk(kv: Pairs) {
    && (forall i | 0 <= i < |kv| :: KeyOk(kv[i].0))
    && (forall i, j | 0 <= i < j < |kv| :: kv[i].0 != kv[j].0)
  }

  predicate Mentions(kv: Pairs, key: Bytes) { exists i | 0 <= i < |kv| :: kv[i].0 == key }

  lemma RestKeysOk(kv: Pairs)
    requires kv != [] && KeysOk(kv)
    ensures KeysOk(kv[1..]) && KeyOk(kv[0].0) && !Mentions(kv[1..], kv[0].0)
    ensures forall key :: Mentions(kv, key) <==> key == kv[0].0 || Mentions(kv[1..], key)
  {
    hide KeyOk;
    forall key | key == kv[0].0 || Mentions(kv[1..], key) ensures Mentions(kv, key) {
      if key != kv[0].0 {
        var i :| 0 <= i < |kv[1..]| && kv[1..][i].0 == key;
        assert kv[i + 1].0 == key;
      }
    }
    forall key | Mentions(kv, key) && key != kv[0].0 ensures Mentions(kv[1..], key) {
      var i :| 0 <= i < |kv| && kv[i].0 == key;
      assert kv[1..][i - 1].0 == key;
    }
  }

  lemma {:induction false} SetAllKeepsOthers(body: Bytes, kv: Pairs, other: Bytes)
    requires KeysOk(kv) && !Mentions(kv, other)
    ensures GetKey(SetAllKeys(body, kv), other) == GetKey(body, other)
    decreases |kv|
  {
    hide SetKey, GetKey, KeysOk, Mentions, KeyOk;
    if kv != [] {
      RestKeysOk(kv);
      SetKeepsOthers(body, kv[0].0, kv[0].1, other);
      SetAllKeepsOthers(SetKey(body, kv[0].0, kv[0].1), kv[1..], other);
    }
  }

  /** A line before the last non-blank one stays what and where it is unless it is the one that is replaced. */
  lemma UntouchedLine(body: Bytes, key: Bytes, value: Bytes, j: nat, m: nat)
    requires KeyOk(key) && j <= m < |Lines(body)| && Lines(body)[m] != []
    requires !Assigns(Lines(body)[j], key)
    ensures var after := Lines(SetKey(body, key, value));
            m < |after| && after[m] != [] && after[j] == Lines(body)[j]
  {
    hide SplitLine, Assigns, KeyOk, Lines, SetKey;
    LinesAfterSet(body, key, value);
    FindKeyFirst(Lines(body), key);
    TrimmedLines(body);
    var kept := Lines(TrimNewlines(body));
    assert FindKey(Lines(body), key) == |Lines(body)| ==> m < |kept|;
    assert m < |kept| ==> kept[m] == Lines(body)[m] && kept[j] == Lines(body)[j];
  }

  lemma {:induction false} UntouchedLines(body: Bytes, kv: Pairs, j: nat, m: nat)
    requires KeysOk(kv) && j <= m < |Lines(body)| && Lines(body)[m] != []
    requires forall key | Mentions(kv, key) :: !Assigns(Lines(body)[j], key)
    ensures var after := Lines(SetAllKeys(body, kv)); m < |after| && after[m] != [] && after[j] == Lines(body)[j]
    decreases |kv|
  {
    hide SetKey, Lines, KeysOk, Mentions, KeyOk, Assigns;
    if kv != [] {
      RestKeysOk(kv);
      UntouchedLine(body, kv[0].0, kv[0].1, j, m);
      UntouchedLines(SetKey(body, kv[0].0, kv[0].1), kv[1..], j, m);
    }
  }

  lemma SetKeepsHolds(body: Bytes, key: Bytes, value: Bytes, other: Bytes, v: Bytes)
    requires KeyOk(key) && other != key && Holds(body, other, v)
    ensures Holds(SetKey(body, key, value), other, v)
  {
    hide SplitLine, Assignment, KeyOk, SetKey, Lines;
    LinesAfterSet(body, key, value);
    TrimmedLines(body);
    AssignmentReadsBack(key, value);
    BlankAssignsNothing(other);
    var lines, after := Lines(body), Lines(SetKey(body, key, value));
    FindKeyFirst(lines, key);
    FindKeyFirst(lines, other);
    FindKeyIs(after, other, FindKey(lines, other));
  }

  lemma {:induction false} SetAllKeepsHolds(body: Bytes, kv: Pairs, other: Bytes, v: Bytes)
    requires KeysOk(kv) && !Mentions(kv, other) && Holds(body, other, v)
    ensures Holds(SetAllKeys(body, kv), other, v)
    decreases |kv|
  {
    hide SetKey, Holds, KeysOk, Mentions, KeyOk;
    if kv != [] {
      RestKeysOk(kv);
      SetKeepsHolds(body, kv[0].0, kv[0].1, other, v);
      SetAllKeepsHolds(SetKey(body, kv[0].0, kv[0].1), kv[1..], other, v);
    }
  }

  lemma {:induction false} SetAllHolds(body: Bytes, kv: Pairs)
    requires KeysOk(kv)
    ensures forall i | 0 <= i < |kv| :: Holds(SetAllKeys(body, kv), kv[i].0, kv[i].1)
    decreases |kv|
  {
    hide SetKey, Holds, KeysOk, Mentions, KeyOk;
    if kv != [] {
      RestKeysOk(kv);
      var first := SetKey(body, kv[0].0, kv[0].1);
      SetHolds(body, kv[0].0, kv[0].1);
      SetAllKeepsHolds(first, kv[1..], kv[0].0, kv[0].1);
      SetAllHolds(first, kv[1..]);
      forall i | 0 <= i < |kv| ensures Holds(SetAllKeys(body, kv), kv[i].0, kv[i].1) {
        if i > 0 {
          assert kv[i] == kv[1..][i - 1];
        }
      }
    }
  }

  lemma {:induction false} AllHeldIsFixed(body: Bytes, kv: Pairs)
    requires forall i | 0 <= i < |kv| :: Holds(body, kv[i].0, kv[i].1)
    ensures SetAllKeys(body, kv) == body
    decreases |kv|
  {
    hide SetKey, Holds;
    if kv != [] {
      HoldsIsFixed(body, kv[0].0, kv[0].1);
      forall i | 0 <= i < |kv[1..]| ensures Holds(body, kv[1..][i].0, kv[1..][i].1) {
        assert kv[1..][i] == kv[i + 1];
      }
      AllHeldIsFixed(body, kv[1..]);
    }
  }

  /** Applying a list twice is applying it once: the comparison that skips the write holds from then on. */
  lemma SetAllTwice(body: Bytes, kv: Pairs)
    requires KeysOk(kv)
    ensures SetAllKeys(SetAllKeys(body, kv), kv) == SetAllKeys(body, kv)
  {
    hide SetAllKeys, Holds, KeysOk;
    SetAllHolds(body, kv);
    AllHeldIsFixed(SetAllKeys(body, kv), kv);
  }

  // ----- the whole way

  /** Merge, list, parse and write: what the installed file then says. */
  function Installed(body: Bytes, order: seq<Bytes>, kv: map<Bytes, Bytes>): Bytes
    requires forall k | k in order :: k in kv
  {
    SetAllKeys(body, ParseLines(Lines(Rendered(order, kv))))
  }

  lemma PairsKeysOk(order: seq<Bytes>, kv: map<Bytes, Bytes>)
    requires KeyOrder(order, kv.Keys) && forall k | k in kv :: KeyOk(k)
    ensures KeysOk(PairsOf(order, kv)) && forall key :: Mentions(PairsOf(order, kv), key) <==> key in kv
  {
    hide KeyOk, Less;
    var p := PairsOf(order, kv);
    forall i, j | 0 <= i < j < |p| ensures p[i].0 != p[j].0 {
      LessIsStrict(order[i], order[j]);
    }
    forall key ensures Mentions(p, key) <==> key in kv {
      if key in kv {
        var i :| 0 <= i < |order| && order[i] == key;
        assert p[i].0 == key;
      }
    }
  }

  /** Entries that survive the list and the file. */
  ghost predicate LayerOk(layer: map<Bytes, Bytes>) { forall k | k in layer :: KeyOk(k) && ListOk(k, layer[k]) }

  /** Text of visible characters that mean nothing to the formats. */
  predicate Word(b: Bytes) {
    && b != []
    && forall i | 0 <= i < |b| ::
         33 <= b[i] < 127 && b[i] != EQUALS && b[i] != HASH && b[i] != QUOTE && b[i] != BACKSLASH
  }

  lemma WordConcat(a: Bytes, b: Bytes)
    requires Word(a) && Word(b)
    ensures Word(a + b)
  {
  }

  lemma WordsFit(key: Bytes, value: Bytes)
    requires Word(key) && Word(value)
    ensures KeyOk(key) && ListOk(key, value) && Plain(value)
  {
    hide SpaceAt, SpaceBefore, NoSpace, TrimSpace;
    VisibleNoSpace(key);
    VisibleNoSpace(value);
    AsciiIsPlain(value);
  }

  lemma WordOf(s: string)
    requires s != ""
    requires forall i | 0 <= i < |s| ::
               '!' <= s[i] <= '~' && s[i] != '=' && s[i] != '#' && s[i] != '"' && s[i] != '\\'
    ensures Word(Ascii(s))
  {
  }

  lemma FeedIsWord(scheme: string, path: string)
    requires scheme == "http" || scheme == "https"
    requires path == "genRSS.php" || path == "v2/getList"
    ensures Word(LocalFeed(Ascii(scheme), Ascii(path)))
  {
    hide Word;
    WordOf(scheme);
    WordOf("://127.0.0.1/");
    WordOf("autoupdate/");
    WordOf(path);
    WordConcat(Ascii(scheme), Ascii("://127.0.0.1/"));
    WordConcat(Ascii(scheme) + Ascii("://127.0.0.1/"), Ascii("autoupdate/"));
    WordConcat(Ascii(scheme) + Ascii("://127.0.0.1/") + Ascii("autoupdate/"), Ascii(path));
  }

  /** The loader's own entries always survive. */
  lemma PolicyFits()
    ensures LayerOk(LoaderPolicy())
    ensures forall k | k in LoaderPolicy() :: Plain(LoaderPolicy()[k])
  {
    hide Word, LocalFeed, KeyOk, ListOk, Plain;
    FeedIsWord("http", "genRSS.php");
    FeedIsWord("https", "genRSS.php");
    FeedIsWord("http", "v2/getList");
    WordOf("support_disk_");
    WordOf("compatibility");
    WordOf("yes");
    WordOf("rss_server");
    WordOf("rss_server_ssl");
    WordOf("rss_server_v2");
    WordConcat(Ascii("support_disk_"), Ascii("compatibility"));
    forall k | k in LoaderPolicy() ensures KeyOk(k) && ListOk(k, LoaderPolicy()[k]) && Plain(LoaderPolicy()[k]) {
      WordsFit(k, LoaderPolicy()[k]);
    }
  }

  lemma MergedFits(platform: map<Bytes, Bytes>, user: map<Bytes, Bytes>, kv: map<Bytes, Bytes>)
    requires LayerOk(platform) && LayerOk(user) && forall k :: ValueOf(kv, k) == Layered(platform, user, k)
    ensures LayerOk(kv)
  {
    hide LoaderPolicy, KeyOk, ListOk;
    PolicyFits();
    forall k | k in kv ensures KeyOk(k) && ListOk(k, kv[k]) {
      assert ValueOf(kv, k) == Layered(platform, user, k);
    }
  }

  /** Every setting reads back as the user's value, else the platform's, else the policy's, in quoted form; every other
      key keeps its value; a second run changes nothing. */
  lemma SettingsArrive(body: Bytes, platform: map<Bytes, Bytes>, user: map<Bytes, Bytes>,
                       kv: map<Bytes, Bytes>, order: seq<Bytes>, key: Bytes)
    requires forall k :: ValueOf(kv, k) == Layered(platform, user, k)
    requires KeyOrder(order, kv.Keys) && LayerOk(platform) && LayerOk(user)
    ensures GetKey(Installed(body, order, kv), key)
            == match Layered(platform, user, key)
               case Some(v) => Some(Escaped(v))
               case None => GetKey(body, key)
    ensures Installed(Installed(body, order, kv), order, kv) == Installed(body, order, kv)
  {
    hide KeyOk, ListOk, GetKey, SetAllKeys, Lines, Rendered, ParseLines, Escaped, Layered, Ascending, KeysOk,
        Mentions, Holds;
    var pairs := PairsOf(order, kv);
    MergedFits(platform, user, kv);
    RenderedParses(order, kv);
    PairsKeysOk(order, kv);
    SetAllTwice(body, pairs);
    assert ValueOf(kv, key) == Layered(platform, user, key);
    if key in kv {
      SetAllHolds(body, pairs);
      var i :| 0 <= i < |order| && order[i] == key;
      assert Holds(SetAllKeys(body, pairs), pairs[i].0, pairs[i].1);
      HoldsReads(SetAllKeys(body, pairs), key, kv[key]);
    } else {
      SetAllKeepsOthers(body, pairs, key);
    }
  }

  /** The file says what was asked for, to the letter, exactly for values that need no escapes. */
  lemma SettingsArriveExactly(body: Bytes, platform: map<Bytes, Bytes>, user: map<Bytes, Bytes>,
                              kv: map<Bytes, Bytes>, order: seq<Bytes>, key: Bytes)
    requires forall k :: ValueOf(kv, k) == Layered(platform, user, k)
    requires KeyOrder(order, kv.Keys) && LayerOk(platform) && LayerOk(user) && Layered(platform, user, key).Some?
    ensures GetKey(Installed(body, order, kv), key) == Layered(platform, user, key)
            <==> Plain(Layered(platform, user, key).value)
  {
    hide KeyOk, ListOk, GetKey, Installed, Escaped, Layered, Ascending, Plain, LayerOk;
    SettingsArrive(body, platform, user, kv, order, key);
    EscapedIsSame(Layered(platform, user, key).value);
  }
}
