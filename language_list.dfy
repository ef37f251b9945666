/** The packed language list of a voice (the `languages` field filled by
    the engine when it lists voices) and its Lua form, a list of
    `{priority, name}` pairs, with the two conversions between them. */
module LanguageList {
  import opened Values
  import opened Lua

  /** One entry of the list: a priority (lower is preferred) and a language
      name such as "en-uk". */
  datatype Language = Language(priority: byte, name: CString)

  // ---------------------------------------------------------------------
  // The byte layout
  // ---------------------------------------------------------------------

  /** One run of the buffer: the priority byte, the name, the name's NUL. */
  function Run(l: Language): seq<byte> {
    [l.priority] + l.name + [0]
  }

  function Runs(ls: seq<Language>): seq<byte> {
    if ls == [] then [] else Run(ls[0]) + Runs(ls[1..])
  }

  /** The packed buffer for `ls`: its runs in order, then one zero byte. */
  function Encode(ls: seq<Language>): seq<byte> {
    Runs(ls) + [0]
  }

  /** The position of the first NUL at or after `from`, if any. */
  function FindNul(buf: seq<byte>, from: nat): (r: Option<nat>)
    ensures r.Some? ==> from <= r.value < |buf| && buf[r.value] == 0
    decreases |buf| - from
  {
    if from >= |buf| then None
    else if buf[from] == 0 then Some(from)
    else FindNul(buf, from + 1)
  }

  /** The bytes FindNul skips are not NUL. */
  lemma {:induction false} FindNulScan(buf: seq<byte>, from: nat)
    requires FindNul(buf, from).Some?
    ensures forall k :: from <= k < FindNul(buf, from).value ==> buf[k] != 0
    ensures NulFree(buf[from..FindNul(buf, from).value])
    decreases |buf| - from
  {
    if buf[from] != 0 {
      FindNulScan(buf, from + 1);
    }
    var j := FindNul(buf, from).value;
    forall i | 0 <= i < j - from ensures buf[from..j][i] != 0 {
      assert buf[from..j][i] == buf[from + i];
    }
  }

  /** The list held in `buf` from `pos` on: runs are read until the byte in
      priority position is zero; None when the buffer ends first. */
  function Parse(buf: seq<byte>, pos: nat): Option<seq<Language>>
    decreases |buf| - pos
  {
    if pos >= |buf| then None
    else if buf[pos] == 0 then Some([])
    else
      match FindNul(buf, pos + 1)
      case None => None
      case Some(j) =>
        FindNulScan(buf, pos + 1);
        match Parse(buf, j + 1)
        case None => None
        case Some(rest) => Some([Language(buf[pos], buf[pos + 1..j])] + rest)
  }

  // ---------------------------------------------------------------------
  // The layout lemmas: Parse and Encode are inverse
  // ---------------------------------------------------------------------

  predicate NonZeroPriorities(ls: seq<Language>) {
    forall i :: 0 <= i < |ls| ==> ls[i].priority != 0
  }

  lemma FindNulAt(buf: seq<byte>, from: nat, j: nat)
    requires from <= j < |buf| && buf[j] == 0
    requires forall k :: from <= k < j ==> buf[k] != 0
    ensures FindNul(buf, from) == Some(j)
    decreases j - from
  {
    if from < j {
      FindNulAt(buf, from + 1, j);
    }
  }

  lemma {:induction false} RunsAppend(ls: seq<Language>, l: Language)
    ensures Runs(ls + [l]) == Runs(ls) + Run(l)
  {
    if ls == [] {
      assert ls + [l] == [l];
    } else {
      assert (ls + [l])[1..] == ls[1..] + [l];
      RunsAppend(ls[1..], l);
    }
  }

  /** Parse read forwards: a run with a non-zero priority, then a list. */
  lemma ParseUnfold(buf: seq<byte>, pos: nat, j: nat, rest: seq<Language>)
    requires pos < |buf| && buf[pos] != 0
    requires FindNul(buf, pos + 1) == Some(j) && Parse(buf, j + 1) == Some(rest)
    ensures NulFree(buf[pos + 1..j])
    ensures Parse(buf, pos) == Some([Language(buf[pos], buf[pos + 1..j])] + rest)
  {
    FindNulScan(buf, pos + 1);
  }

  /** One step of Parse: a run with a non-zero priority byte at `pos`. */
  lemma ParseStep(buf: seq<byte>, pos: nat) returns (j: nat)
    requires Parse(buf, pos).Some? && buf[pos] != 0
    ensures FindNul(buf, pos + 1) == Some(j)
    ensures NulFree(buf[pos + 1..j]) && Parse(buf, j + 1).Some?
    ensures Parse(buf, pos).value == [Language(buf[pos], buf[pos + 1..j])] + Parse(buf, j + 1).value
  {
    j := FindNul(buf, pos + 1).value;
    FindNulScan(buf, pos + 1);
  }

  lemma EncodeCons(ls: seq<Language>)
    requires ls != []
    ensures Encode(ls) == [ls[0].priority] + (ls[0].name + ([0] + Encode(ls[1..])))
    ensures |Encode(ls)| == 2 + |ls[0].name| + |Encode(ls[1..])|
  {
    var r := Runs(ls[1..]);
    assert Encode(ls) == ((([ls[0].priority] + ls[0].name) + [0]) + r) + [0];
    Regroup([ls[0].priority], ls[0].name, [0], r, [0]);
  }

  lemma Regroup(a: seq<byte>, b: seq<byte>, c: seq<byte>, d: seq<byte>, e: seq<byte>)
    ensures (((a + b) + c) + d) + e == a + (b + (c + (d + e)))
  {
  }

  /** A slice holding `a + b` holds `a` and then `b`. */
  lemma SplitSlice(s: seq<byte>, lo: nat, a: seq<byte>, b: seq<byte>)
    requires lo + |a| + |b| <= |s| && s[lo..lo + |a| + |b|] == a + b
    ensures s[lo..lo + |a|] == a && s[lo + |a|..lo + |a| + |b|] == b
  {
    assert s[lo..lo + |a|] == (a + b)[..|a|];
    assert s[lo + |a|..lo + |a| + |b|] == (a + b)[|a|..];
  }

  /** Adjacent slices holding `a` and `b` together hold `a + b`. */
  lemma JoinSlice(s: seq<byte>, lo: nat, a: seq<byte>, b: seq<byte>)
    requires lo + |a| + |b| <= |s|
    requires s[lo..lo + |a|] == a && s[lo + |a|..lo + |a| + |b|] == b
    ensures s[lo..lo + |a| + |b|] == a + b
  {
    assert s[lo..lo + |a| + |b|] == s[lo..lo + |a|] + s[lo + |a|..lo + |a| + |b|];
  }

  /** A NUL-free name followed by a NUL: FindNul stops right after it. */
  lemma FindNulAfter(buf: seq<byte>, from: nat, name: CString)
    requires from + |name| < |buf| && buf[from..from + |name|] == name && buf[from + |name|] == 0
    ensures FindNul(buf, from) == Some(from + |name|)
  {
    forall k | from <= k < from + |name|
      ensures buf[k] != 0
    {
      assert buf[k] == name[k - from];
    }
    FindNulAt(buf, from, from + |name|);
  }

  /** A slice holding a priority, a name, a NUL and then `e`. */
  lemma SliceRun(buf: seq<byte>, pos: nat, p: byte, name: CString, e: seq<byte>)
    requires pos + 2 + |name| + |e| <= |buf|
    requires buf[pos..pos + 2 + |name| + |e|] == [p] + (name + ([0] + e))
    ensures buf[pos] == p && buf[pos + 1..pos + 1 + |name|] == name
    ensures buf[pos + 1 + |name|] == 0
    ensures buf[pos + 2 + |name|..pos + 2 + |name| + |e|] == e
  {
    var j := pos + 1 + |name|;
    SplitSlice(buf, pos, [p], name + ([0] + e));
    SplitSlice(buf, pos + 1, name, [0] + e);
    SplitSlice(buf, j, [0], e);
    assert buf[pos] == buf[pos..pos + 1][0];
    assert buf[j] == buf[j..j + 1][0];
  }

  lemma NonZeroTail(ls: seq<Language>)
    requires ls != [] && NonZeroPriorities(ls)
    ensures ls[0].priority != 0 && NonZeroPriorities(ls[1..])
  {
    forall i | 0 <= i < |ls[1..]| ensures ls[1..][i].priority != 0 {
      assert ls[1..][i] == ls[i + 1];
    }
  }

  /** The runs of `ls` lie in `buf` from `pos` on, followed by a zero byte
      in priority position: the layout stated byte by byte. */
  predicate LaidOut(buf: seq<byte>, pos: nat, ls: seq<Language>)
    decreases |ls|
  {
    if ls == [] then pos < |buf| && buf[pos] == 0
    else
      var j := pos + 1 + |ls[0].name|;
      j < |buf| && buf[pos] == ls[0].priority && buf[pos + 1..j] == ls[0].name && buf[j] == 0 &&
      LaidOut(buf, j + 1, ls[1..])
  }

  /** Parse reads back a list laid out with non-zero priorities,
      whatever follows it. */
  lemma {:induction false} ParseLaidOut(buf: seq<byte>, pos: nat, ls: seq<Language>)
    requires NonZeroPriorities(ls) && LaidOut(buf, pos, ls)
    ensures Parse(buf, pos) == Some(ls)
    decreases |ls|
  {
    if ls != [] {
      FindNulAfter(buf, pos + 1, ls[0].name);
      NonZeroTail(ls);
      ParseLaidOut(buf, pos + 2 + |ls[0].name|, ls[1..]);
      ParseCons(buf, pos, ls);
    }
  }

  /** Parse at the start of a run, once the rest of the list is read. */
  lemma ParseCons(buf: seq<byte>, pos: nat, ls: seq<Language>)
    requires ls != [] && ls[0].priority != 0
    requires pos + 1 + |ls[0].name| <= |buf| && buf[pos] == ls[0].priority
    requires buf[pos + 1..pos + 1 + |ls[0].name|] == ls[0].name
    requires FindNul(buf, pos + 1) == Some(pos + 1 + |ls[0].name|)
    requires Parse(buf, pos + 2 + |ls[0].name|) == Some(ls[1..])
    ensures Parse(buf, pos) == Some(ls)
  {
    var j := pos + 1 + |ls[0].name|;
    ParseUnfold(buf, pos, j, ls[1..]);
    assert ls == [Language(buf[pos], buf[pos + 1..j])] + ls[1..];
  }

  /** Whatever Parse reads is laid out where it was read, with non-zero
      priorities. */
  lemma {:induction false} LaidOutParse(buf: seq<byte>, pos: nat, ls: seq<Language>)
    requires Parse(buf, pos) == Some(ls)
    ensures LaidOut(buf, pos, ls) && NonZeroPriorities(ls)
    decreases |buf| - pos
  {
    if buf[pos] == 0 {
      assert ls == [];
    } else {
      var j := ParseStep(buf, pos);
      var rest := Parse(buf, j + 1).value;
      LaidOutParse(buf, j + 1, rest);
      LaidOutCons(buf, pos, j, rest, ls);
    }
  }

  lemma LaidOutCons(buf: seq<byte>, pos: nat, j: nat, rest: seq<Language>, ls: seq<Language>)
    requires pos < j < |buf| && buf[pos] != 0 && buf[j] == 0 && NulFree(buf[pos + 1..j])
    requires ls == [Language(buf[pos], buf[pos + 1..j])] + rest
    requires LaidOut(buf, j + 1, rest) && NonZeroPriorities(rest)
    ensures LaidOut(buf, pos, ls) && NonZeroPriorities(ls)
  {
    assert ls[0].name == buf[pos + 1..j] && ls[1..] == rest;
    forall i | 0 <= i < |ls| ensures ls[i].priority != 0 {
      if i > 0 { assert ls[i] == rest[i - 1]; }
    }
  }

  /** A laid-out list is its encoding followed by anything. */
  lemma {:induction false} LaidOutEncoded(buf: seq<byte>, pos: nat, ls: seq<Language>)
    requires LaidOut(buf, pos, ls)
    ensures pos + |Encode(ls)| <= |buf| && buf[pos..pos + |Encode(ls)|] == Encode(ls)
    decreases |ls|
  {
    if ls == [] {
      assert buf[pos..pos + 1] == [0];
    } else {
      LaidOutEncoded(buf, pos + 2 + |ls[0].name|, ls[1..]);
      EncodedAfterRun(buf, pos, ls[0], ls[1..]);
      assert [ls[0]] + ls[1..] == ls;
    }
  }

  /** An encoding followed by anything lays the list out. */
  lemma {:induction false} EncodedLaidOut(buf: seq<byte>, pos: nat, ls: seq<Language>)
    requires pos + |Encode(ls)| <= |buf| && buf[pos..pos + |Encode(ls)|] == Encode(ls)
    ensures LaidOut(buf, pos, ls)
    decreases |ls|
  {
    if ls == [] {
      assert buf[pos] == buf[pos..pos + |Encode(ls)|][0];
    } else {
      EncodeCons(ls);
      SliceRun(buf, pos, ls[0].priority, ls[0].name, Encode(ls[1..]));
      EncodedLaidOut(buf, pos + 2 + |ls[0].name|, ls[1..]);
    }
  }

  /** A run followed by an encoding is the encoding of the longer list. */
  lemma EncodedAfterRun(buf: seq<byte>, pos: nat, l: Language, rest: seq<Language>)
    requires pos + |Run(l)| + |Encode(rest)| <= |buf|
    requires buf[pos] == l.priority && buf[pos + 1 + |l.name|] == 0
    requires buf[pos + 1..pos + 1 + |l.name|] == l.name
    requires buf[pos + |Run(l)|..pos + |Run(l)| + |Encode(rest)|] == Encode(rest)
    ensures buf[pos..pos + |Encode([l] + rest)|] == Encode([l] + rest)
  {
    var j := pos + 1 + |l.name|;
    var e' := Encode(rest);
    assert buf[j..j + 1] == [0];
    JoinSlice(buf, j, [0], e');
    JoinSlice(buf, pos + 1, l.name, [0] + e');
    assert buf[pos..pos + 1] == [l.priority];
    JoinSlice(buf, pos, [l.priority], l.name + ([0] + e'));
    EncodeCons([l] + rest);
    assert ([l] + rest)[1..] == rest;
  }

  /** Decoding at any position where an encoding starts reads back the
      encoded list, whatever follows it. */
  lemma ParseEncoded(buf: seq<byte>, pos: nat, ls: seq<Language>)
    requires NonZeroPriorities(ls)
    requires pos + |Encode(ls)| <= |buf| && buf[pos..pos + |Encode(ls)|] == Encode(ls)
    ensures Parse(buf, pos) == Some(ls)
  {
    EncodedLaidOut(buf, pos, ls);
    ParseLaidOut(buf, pos, ls);
  }

  /** Round trip: a list whose priorities are non-zero decodes from its
      encoding unchanged and in order (a zero priority would end it). */
  lemma DecodeEncode(ls: seq<Language>)
    requires NonZeroPriorities(ls)
    ensures Parse(Encode(ls), 0) == Some(ls)
  {
    ParseEncoded(Encode(ls), 0, ls);
  }

  /** The converse: whatever a buffer decodes to, the buffer begins with
      that list's encoding, and every decoded priority is non-zero. */
  lemma EncodeDecode(buf: seq<byte>, pos: nat, ls: seq<Language>)
    requires Parse(buf, pos) == Some(ls)
    ensures pos + |Encode(ls)| <= |buf| && buf[pos..pos + |Encode(ls)|] == Encode(ls)
    ensures NonZeroPriorities(ls)
  {
    LaidOutParse(buf, pos, ls);
    LaidOutEncoded(buf, pos, ls);
  }

  /** Both directions together: `buf` decodes at `pos` to `ls` exactly when
      the encoding of `ls` starts there and no priority of `ls` is zero. */
  lemma ParseIff(buf: seq<byte>, pos: nat, ls: seq<Language>)
    ensures Parse(buf, pos) == Some(ls) <==>
      NonZeroPriorities(ls) && pos + |Encode(ls)| <= |buf| && buf[pos..pos + |Encode(ls)|] == Encode(ls)
  {
    if Parse(buf, pos) == Some(ls) {
      EncodeDecode(buf, pos, ls);
    }
    if NonZeroPriorities(ls) && pos + |Encode(ls)| <= |buf| && buf[pos..pos + |Encode(ls)|] == Encode(ls) {
      ParseEncoded(buf, pos, ls);
    }
  }

  lemma EncodeEmpty()
    ensures Encode([]) == [0] && Parse([0], 0) == Some([])
  {
  }

  // ---------------------------------------------------------------------
  // The Lua form: { {priority, name}, {priority, name}, ... }
  // ---------------------------------------------------------------------

  /** The pair table `{ [1] = priority, [2] = name }` for one entry; the
      priority byte is read through a signed `char`. */
  function PairValue(l: Language): LuaVal {
    Table(PairFields(l))
  }

  function PairFields(l: Language): map<Key, LuaVal> {
    map[Index(1) := Num(SignedChar(l.priority)), Index(2) := Str(l.name)]
  }

  /** The list table: entry i of `ls` under index i + 1. */
  function ListTable(ls: seq<Language>): map<Key, LuaVal> {
    if ls == [] then map[]
    else ListTable(ls[..|ls| - 1])[Index(|ls|) := PairValue(ls[|ls| - 1])]
  }

  /** The list table holds the pairs under 1..|ls| in order, and nothing
      else: any other key, index or field name, reads as nil. */
  lemma {:induction false} ListTableAt(ls: seq<Language>, key: Key)
    ensures key in ListTable(ls) <==> key.Index? && 1 <= key.i <= |ls|
    ensures Get(ListTable(ls), key) == if key.Index? && 1 <= key.i <= |ls| then PairValue(ls[key.i - 1]) else Nil
  {
    if ls != [] {
      ListTableAt(ls[..|ls| - 1], key);
    }
  }

  lemma ListTableSnoc(ls: seq<Language>, l: Language)
    ensures ListTable(ls + [l]) == ListTable(ls)[Index(|ls| + 1) := PairValue(l)]
  {
    assert (ls + [l])[..|ls|] == ls;
  }

  /** The list table as push_language_list builds it: the index `i` is
      pushed after the pair table, so `lua_settable(L, -3)` stores the pair
      as the key and `i` as its value. The i-th pair table created is the
      key with identity i. */
  function ListTableAsWritten(ls: seq<Language>): map<Key, LuaVal> {
    if ls == [] then map[]
    else ListTableAsWritten(ls[..|ls| - 1])[TableKey(|ls|, PairFields(ls[|ls| - 1])) := Num(|ls|)]
  }

  /** The table as written maps the i-th pair to the number i and holds
      nothing else; in particular nothing under any index. */
  lemma {:induction false} ListTableAsWrittenAt(ls: seq<Language>, key: Key)
    ensures key in ListTableAsWritten(ls) <==>
      key.TableKey? && 1 <= key.id <= |ls| && key.contents == PairFields(ls[key.id - 1])
    ensures key in ListTableAsWritten(ls) ==> ListTableAsWritten(ls)[key] == Num(key.id)
  {
    if ls != [] {
      ListTableAsWrittenAt(ls[..|ls| - 1], key);
    }
  }

  /** Input that shows it: the table as written has no entry under 1, so
      get_language_list (even with its stack handling fixed) reads any
      pushed list back as the empty list, while the intended table reads
      back as the list itself. */
  lemma ListTableAsWrittenReadsEmpty(ls: seq<Language>)
    ensures ReadLanguages(Table(ListTableAsWritten(ls))) == Ok([])
    ensures ls != [] ==> ListTableAsWritten(ls) != ListTable(ls)
  {
    ListTableAsWrittenAt(ls, Index(1));
    if ls != [] {
      ListTableAt(ls, Index(1));
    }
  }

  /** One iteration of push_language_list: the run at `pos` is the next
      pair, and the table grows by that pair under the next index. */
  lemma PushStep(buf: seq<byte>, pos: nat, done: seq<Language>, rest: seq<Language>) returns (j: nat, l: Language)
    requires Parse(buf, pos) == Some(rest) && buf[pos] != 0
    ensures FindNul(buf, pos + 1) == Some(j)
    ensures l.priority == buf[pos] && l.name == buf[pos + 1..j]
    ensures rest != [] && done + rest == (done + [l]) + rest[1..]
    ensures Parse(buf, j + 1) == Some(rest[1..])
  {
    j := ParseStep(buf, pos);
    l := Language(buf[pos], buf[pos + 1..j]);
    ConsShift(done, l, Parse(buf, j + 1).value);
  }

  lemma ConsShift(done: seq<Language>, l: Language, rest: seq<Language>)
    ensures ([l] + rest)[1..] == rest
    ensures done + ([l] + rest) == (done + [l]) + rest
  {
  }

  /** The scan that moves past a language name: the index of the NUL that
      ends the name starting at `start`. */
  method SkipName(langlist: array<byte>, start: nat) returns (pos: nat)
    requires FindNul(langlist[..], start).Some?
    ensures pos == FindNul(langlist[..], start).value
  {
    pos := start;
    while langlist[pos] != 0
      invariant start <= pos < langlist.Length
      invariant FindNul(langlist[..], pos) == FindNul(langlist[..], start)
      decreases langlist.Length - pos
    {
      pos := pos + 1;
    }
  }

  /** push_language_list: walks the buffer run by run, numbering the pairs
      1, 2, ...; it stops at the first zero byte in priority position. */
  method PushLanguageList(langlist: array<byte>) returns (list: LuaVal)
    requires Parse(langlist[..], 0).Some?
    ensures list == Table(ListTable(Parse(langlist[..], 0).value))
  {
    ghost var buf := langlist[..];
    ghost var whole := Parse(buf, 0).value;
    ghost var done: seq<Language> := [];
    ghost var rest := whole;
    var t: map<Key, LuaVal> := map[];
    var i := 1;
    var pos: nat := 0;
    while langlist[pos] != 0
      invariant Parse(buf, pos) == Some(rest)
      invariant pos < langlist.Length
      invariant whole == done + rest
      invariant t == ListTable(done) && i == |done| + 1
      decreases langlist.Length - pos
    {
      ghost var j, l := PushStep(buf, pos, done, rest);
      var priority := langlist[pos];
      pos := pos + 1;
      var start := pos;
      pos := SkipName(langlist, start);
      assert pos == j by {
        assert langlist[..] == buf;
      }
      var name := langlist[start..pos];
      t := t[Index(i) := Table(map[Index(1) := Num(SignedChar(priority)), Index(2) := Str(name)])];
      i := i + 1;
      ListTableSnoc(done, l);
      done, rest := done + [l], rest[1..];
      pos := pos + 1;
    }
    assert buf[pos] == 0;
    assert rest == [];
    assert done == whole by {
      assert done + [] == done;
    }
    assert langlist[..] == buf;
    list := Table(t);
  }

  // ---------------------------------------------------------------------
  // Reading the Lua form back (get_language_list)
  // ---------------------------------------------------------------------

  const BadPairMessage := "Bad priority/language pair found."
  const BadPriorityMessage := "Bad language priority found."
  const BadNameMessage := "Bad language name found."

  /** A failed type check of get_language_list, as its authors meant it. */
  predicate WrongType(v: LuaVal, expected: LuaType) {
    TypeOf(v) != expected
  }

  /** One pair as get_language_list reads it: a table holding a number at
      [1] (written as a byte) and a string at [2] (cut at its first NUL). */
  function ReadPair(entry: LuaVal): Result<Language> {
    if WrongType(entry, TTable) then Err(BadField(BadPairMessage))
    else
      var priority := Get(entry.fields, Index(1));
      if WrongType(priority, TNumber) then Err(BadField(BadPriorityMessage))
      else
        var name := Get(entry.fields, Index(2));
        if WrongType(name, TString) then Err(BadField(BadNameMessage))
        else Ok(Language(ToByte(priority.n), CStr(name.s)))
  }

  /** The pairs get_language_list reads from `t`, at indices k, k + 1, ...
      up to the first nil. Visited keys are dropped from `t`, which makes
      the termination of the walk over a finite table evident. */
  function ReadList(t: map<Key, LuaVal>, k: int): Result<seq<Language>>
    decreases |t|
  {
    var entry := Get(t, Index(k));
    if entry.Nil? then Ok([])
    else
      match ReadPair(entry)
      case Err(e) => Err(e)
      case Ok(l) =>
        assert |t - {Index(k)}| < |t| by {
          assert (t - {Index(k)}).Keys == t.Keys - {Index(k)};
        }
        Prepend([l], ReadList(t - {Index(k)}, k + 1))
  }

  /** One step of ReadList past a well-formed pair at index k. */
  lemma ReadListNext(t: map<Key, LuaVal>, k: int, l: Language)
    requires Get(t, Index(k)) != Nil && ReadPair(Get(t, Index(k))) == Ok(l)
    ensures ReadList(t, k) == Prepend([l], ReadList(t - {Index(k)}, k + 1))
    ensures |t - {Index(k)}| < |t|
    ensures forall j :: j != k ==> Get(t - {Index(k)}, Index(j)) == Get(t, Index(j))
  {
    assert (t - {Index(k)}).Keys == t.Keys - {Index(k)};
  }

  function Prepend(ls: seq<Language>, r: Result<seq<Language>>): (p: Result<seq<Language>>)
    ensures p.Ok? <==> r.Ok?
    ensures p.Ok? ==> p.value == ls + r.value
    ensures p.Err? ==> p.error == r.error
  {
    match r
    case Ok(rest) => Ok(ls + rest)
    case Err(e) => Err(e)
  }

  lemma PrependPrepend(done: seq<Language>, l: Language, r: Result<seq<Language>>)
    ensures Prepend(done, Prepend([l], r)) == Prepend(done + [l], r)
  {
    if r.Ok? {
      assert done + ([l] + r.value) == (done + [l]) + r.value;
    }
  }

  /** What get_language_list reads from its argument. */
  function ReadLanguages(arg: LuaVal): Result<seq<Language>> {
    if arg.Table? then ReadList(arg.fields, 1) else Err(NotATable)
  }

  /** A table of pairs starting at index k reads back as those pairs. */
  lemma {:induction false} ReadListPairs(t: map<Key, LuaVal>, k: int, ls: seq<Language>)
    requires forall j :: 0 <= j < |ls| ==> Get(t, Index(k + j)) == PairValue(ls[j])
    requires Get(t, Index(k + |ls|)) == Nil
    ensures ReadList(t, k) == Ok(ls)
    decreases |ls|
  {
    if ls != [] {
      assert Get(t, Index(k + 0)) == PairValue(ls[0]);
      ToByteSignedChar(ls[0].priority);
      var t' := t - {Index(k)};
      forall j | 0 <= j < |ls[1..]|
        ensures Get(t', Index(k + 1 + j)) == PairValue(ls[1..][j])
      {
        assert Get(t, Index(k + (j + 1))) == PairValue(ls[j + 1]);
      }
      assert Get(t', Index(k + 1 + |ls[1..]|)) == Nil;
      ReadListPairs(t', k + 1, ls[1..]);
      assert ls == [ls[0]] + ls[1..];
    }
  }

  /** The table push_language_list builds reads back as the same list. */
  lemma ReadListTable(ls: seq<Language>)
    ensures ReadLanguages(Table(ListTable(ls))) == Ok(ls)
  {
    var t := ListTable(ls);
    forall j | 0 <= j < |ls|
      ensures Get(t, Index(1 + j)) == PairValue(ls[j])
    {
      ListTableAt(ls, Index(1 + j));
    }
    ListTableAt(ls, Index(1 + |ls|));
    ReadListPairs(t, 1, ls);
  }

  /** Round trip on the Lua side: encoding the table push_language_list
      built and decoding the bytes again gives back that table, provided
      no priority is 0. With Lua integers as priorities this means 1..127
      (see Values.SignedCharToByte). */
  lemma TableRoundTrip(ls: seq<Language>)
    requires NonZeroPriorities(ls)
    ensures ReadLanguages(Table(ListTable(ls))).Ok?
    ensures Parse(Encode(ReadLanguages(Table(ListTable(ls))).value), 0) == Some(ls)
  {
    ReadListTable(ls);
    DecodeEncode(ls);
  }

  /** The buffer size after the growth step for a name of `len` bytes
      about to be copied at `pos`: room for the name, its NUL and the byte
      written after it (the next priority or the final terminator). */
  function GrownSize(bufsz: nat, pos: nat, len: nat): (n: nat)
    ensures pos + len + 2 <= n
    ensures bufsz <= n
    ensures pos + len + 2 <= bufsz ==> n == bufsz
  {
    if bufsz < pos + len + 2 then pos + len + 10 else bufsz
  }

  /** `realloc`: a buffer of `size` bytes that starts with the first `pos`
      bytes of `str`. */
  method Grow(str: array<byte>, pos: nat, size: nat) returns (grown: array<byte>)
    requires pos <= str.Length && pos <= size
    ensures fresh(grown) && grown.Length == size
    ensures grown[..pos] == str[..pos]
  {
    grown := new byte[size];
    forall k | 0 <= k < pos {
      grown[k] := str[k];
    }
  }

  /** `strcpy(&str[pos], name)`: the name's bytes, then its NUL. */
  method CopyName(str: array<byte>, pos: nat, name: CString)
    requires pos + |name| < str.Length
    modifies str
    ensures str[..pos + |name| + 1] == old(str[..pos]) + name + [0]
  {
    var k := 0;
    while k < |name|
      invariant 0 <= k <= |name|
      invariant str[..pos + k] == old(str[..pos]) + name[..k]
    {
      str[pos + k] := name[k];
      k := k + 1;
    }
    str[pos + |name|] := 0;
    assert name[..|name|] == name;
  }

  /** One byte stored at `pos`: a priority, or the final zero. */
  method PutByte(str: array<byte>, pos: nat, p: byte)
    requires pos < str.Length
    modifies str
    ensures str[..pos + 1] == old(str[..pos]) + [p]
  {
    str[pos] := p;
  }

  /** The growth step and the copy of one name at `pos`: `realloc` to
      GrownSize when the name would not fit, then `strcpy`. */
  method AppendName(str: array<byte>, pos: nat, name: CString) returns (out: array<byte>)
    requires pos <= str.Length
    modifies str
    ensures out == str || fresh(out)
    ensures out.Length == GrownSize(str.Length, pos, |name|)
    ensures out[..pos + |name| + 1] == old(str[..pos]) + name + [0]
  {
    var size := GrownSize(str.Length, pos, |name|);
    out := str;
    if size != str.Length {
      out := Grow(str, pos, size);
    }
    CopyName(out, pos, name);
  }

  /** The body of get_language_list's loop for one entry: its type checks
      in the order the code makes them, with the priority byte stored
      before the name is checked, then the name copied after it. */
  method StorePair(str: array<byte>, pos: nat, entry: LuaVal) returns (res: Result<Language>, out: array<byte>, next: nat)
    requires pos < str.Length
    modifies str
    ensures res == ReadPair(entry)
    ensures res == Err(BadField(BadPairMessage)) || res == Err(BadField(BadPriorityMessage)) ==>
      str[..] == old(str[..])
    ensures res == Err(BadField(BadNameMessage)) ==>
      && entry.Table? && Get(entry.fields, Index(1)).Num?
      && str[..pos + 1] == old(str[..pos]) + [ToByte(Get(entry.fields, Index(1)).n)]
    ensures res.Ok? ==> out == str || fresh(out)
    ensures res.Ok? ==> next < out.Length && out[..next] == old(str[..pos]) + Run(res.value)
  {
    out, next := str, pos;
    if WrongType(entry, TTable) {
      return Err(BadField(BadPairMessage)), out, next;
    }
    var priority := Get(entry.fields, Index(1));
    if WrongType(priority, TNumber) {
      return Err(BadField(BadPriorityMessage)), out, next;
    }
    ghost var written := str[..pos];
    PutByte(str, pos, ToByte(priority.n));
    var value := Get(entry.fields, Index(2));
    if WrongType(value, TString) {
      return Err(BadField(BadNameMessage)), out, next;
    }
    var name := CStr(value.s);
    out := AppendName(str, pos + 1, name);
    next := pos + 1 + |name| + 1;
    res := Ok(Language(ToByte(priority.n), name));
    RunAfter(written, res.value);
  }

  lemma RunAfter(written: seq<byte>, l: Language)
    ensures ((written + [l.priority]) + l.name) + [0] == written + Run(l)
  {
  }

  /** The walk's bookkeeping after reading the well-formed pair at `index`:
      the visited key is dropped and the pair joins those already read. */
  lemma ReadStep(t: map<Key, LuaVal>, rest: map<Key, LuaVal>, index: int, done: seq<Language>, l: Language)
    requires forall j :: j >= index ==> Get(rest, Index(j)) == Get(t, Index(j))
    requires ReadList(t, 1) == Prepend(done, ReadList(rest, index))
    requires Get(t, Index(index)) != Nil && ReadPair(Get(t, Index(index))) == Ok(l)
    ensures forall j :: j >= index + 1 ==> Get(rest - {Index(index)}, Index(j)) == Get(t, Index(j))
    ensures ReadList(t, 1) == Prepend(done + [l], ReadList(rest - {Index(index)}, index + 1))
    ensures |rest - {Index(index)}| < |rest|
  {
    assert Get(rest, Index(index)) == Get(t, Index(index));
    ReadListNext(rest, index, l);
    PrependPrepend(done, l, ReadList(rest - {Index(index)}, index + 1));
  }

  /** The walk stops at a malformed pair with that pair's error. */
  lemma ReadStops(t: map<Key, LuaVal>, rest: map<Key, LuaVal>, index: int, done: seq<Language>, e: DecodeError)
    requires forall j :: j >= index ==> Get(rest, Index(j)) == Get(t, Index(j))
    requires ReadList(t, 1) == Prepend(done, ReadList(rest, index))
    requires Get(t, Index(index)) != Nil && ReadPair(Get(t, Index(index))) == Err(e)
    ensures ReadList(t, 1) == Err(e)
  {
    assert Get(rest, Index(index)) == Get(t, Index(index));
  }

  /** The walk ends at the first nil with the pairs read so far. */
  lemma ReadEnds(t: map<Key, LuaVal>, rest: map<Key, LuaVal>, index: int, done: seq<Language>)
    requires forall j :: j >= index ==> Get(rest, Index(j)) == Get(t, Index(j))
    requires ReadList(t, 1) == Prepend(done, ReadList(rest, index))
    requires Get(t, Index(index)) == Nil
    ensures ReadList(t, 1) == Ok(done)
  {
    assert Get(rest, Index(index)) == Get(t, Index(index));
    assert done + [] == done;
  }

  /** get_language_list: writes, for pairs 1, 2, ... up to the first nil,
      the priority byte, the name and its NUL into a buffer of 16 bytes
      that grows when a name would not fit, then the terminating zero;
      every write stays inside the buffer. */
  method GetLanguageList(arg: LuaVal) returns (r: Result<seq<byte>>)
    ensures r.Ok? <==> ReadLanguages(arg).Ok?
    ensures r.Ok? ==> r.value == Encode(ReadLanguages(arg).value)
    ensures r.Err? ==> r.error == ReadLanguages(arg).error
  {
    if !arg.Table? {
      return Err(NotATable);
    }
    var t := arg.fields;
    var index := 1;
    var pos: nat := 0;
    var str := new byte[16];
    ghost var rest := t;
    ghost var done: seq<Language> := [];
    assert Prepend(done, ReadList(rest, index)) == ReadList(t, 1) by {
      assert ReadList(t, 1).Ok? ==> [] + ReadList(t, 1).value == ReadList(t, 1).value;
    }
    while true
      invariant fresh(str) && pos < str.Length
      invariant str[..pos] == Runs(done)
      invariant forall j :: j >= index ==> Get(rest, Index(j)) == Get(t, Index(j))
      invariant ReadList(t, 1) == Prepend(done, ReadList(rest, index))
      decreases |rest|
    {
      var entry := Get(t, Index(index));
      if entry.Nil? {
        ReadEnds(t, rest, index, done);
        break;
      }
      var res;
      res, str, pos := StorePair(str, pos, entry);
      if res.Err? {
        ReadStops(t, rest, index, done, res.error);
        return Err(res.error);
      }
      RunsAppend(done, res.value);
      ReadStep(t, rest, index, done, res.value);
      done := done + [res.value];
      rest := rest - {Index(index)};
      index := index + 1;
    }
    PutByte(str, pos, 0);
    r := Ok(str[..pos + 1]);
  }

  /** A client of both operations: pairs pushed to Lua and got back come out
      as the same table. */
  method LanguageListRoundTrip(ls: seq<Language>) returns (back: LuaVal)
    requires NonZeroPriorities(ls)
    ensures back == Table(ListTable(ls))
  {
    var bytes := GetLanguageList(Table(ListTable(ls)));
    ReadListTable(ls);
    DecodeEncode(ls);
    var encoded := bytes.value;
    var buf := new byte[|encoded|](k requires 0 <= k < |encoded| => encoded[k]);
    assert buf[..] == encoded;
    back := PushLanguageList(buf);
  }

  // ---------------------------------------------------------------------
  // The code as written, where it differs from the model above
  // ---------------------------------------------------------------------

  /** push_language_list as written: its scan `while (langlist[++pos]);`
      advances before testing, so it starts one byte into the name and,
      for an empty name, runs past the name's NUL into the next run. The
      pushed name is the C string at the name position. */
  function ParseAsWritten(buf: seq<byte>, pos: nat): Option<seq<Language>>
    decreases |buf| - pos
  {
    if pos >= |buf| then None
    else if buf[pos] == 0 then Some([])
    else if pos + 1 >= |buf| then None
    else
      match FindNul(buf, pos + 2)
      case None => None
      case Some(j) =>
        match ParseAsWritten(buf, j + 1)
        case None => None
        case Some(rest) => Some([Language(buf[pos], CStr(buf[pos + 1..]))] + rest)
  }

  lemma ParseAsWrittenStep(buf: seq<byte>, pos: nat, j: nat, rest: seq<Language>)
    requires pos + 1 < |buf| && buf[pos] != 0
    requires FindNul(buf, pos + 2) == Some(j) && ParseAsWritten(buf, j + 1) == Some(rest)
    ensures ParseAsWritten(buf, pos) == Some([Language(buf[pos], CStr(buf[pos + 1..]))] + rest)
  {
  }

  predicate NonEmptyNames(ls: seq<Language>) {
    forall i :: 0 <= i < |ls| ==> ls[i].name != []
  }

  /** With no empty name the code as written reads what the model reads. */
  lemma {:induction false} ParseAsWrittenAgrees(buf: seq<byte>, pos: nat)
    requires Parse(buf, pos).Some? && NonEmptyNames(Parse(buf, pos).value)
    ensures ParseAsWritten(buf, pos) == Parse(buf, pos)
    decreases |buf| - pos
  {
    if buf[pos] != 0 {
      var j := ParseStep(buf, pos);
      var rest := Parse(buf, j + 1).value;
      NonEmptyTail(Parse(buf, pos).value, Language(buf[pos], buf[pos + 1..j]), rest);
      ParseAsWrittenAgrees(buf, j + 1);
      AgreeCons(buf, pos, j, rest);
    }
  }

  lemma NonEmptyTail(ls: seq<Language>, l: Language, rest: seq<Language>)
    requires ls == [l] + rest && NonEmptyNames(ls)
    ensures l.name != [] && NonEmptyNames(rest)
  {
    assert ls[0] == l;
    forall i | 0 <= i < |rest| ensures rest[i].name != [] {
      assert rest[i] == ls[i + 1];
    }
  }

  /** One run with a non-empty name: both parsers read the same pair. */
  lemma AgreeCons(buf: seq<byte>, pos: nat, j: nat, rest: seq<Language>)
    requires pos < |buf| && buf[pos] != 0 && FindNul(buf, pos + 1) == Some(j) && j > pos + 1
    requires NulFree(buf[pos + 1..j]) && ParseAsWritten(buf, j + 1) == Some(rest)
    ensures ParseAsWritten(buf, pos) == Some([Language(buf[pos], buf[pos + 1..j])] + rest)
  {
    FindNulScan(buf, pos + 1);
    FindNulAt(buf, pos + 2, j);
    var s := buf[pos + 1..];
    assert s[..j - pos - 1] == buf[pos + 1..j];
    CStrPrefix(s, j - pos - 1);
    ParseAsWrittenStep(buf, pos, j, rest);
  }

  lemma {:induction false} CStrPrefix(s: seq<byte>, n: nat)
    requires n < |s| && s[n] == 0 && NulFree(s[..n])
    ensures CStr(s) == s[..n]
  {
    if n > 0 {
      assert s[0] == s[..n][0];
      CStrPrefix(s[1..], n - 1);
      assert s[1..][..n - 1] == s[..n][1..];
    }
  }

  /** Input that shows it: the list (5, ""), (3, "a") encodes to
      5 0 3 'a' 0 0; the code as written returns only the first pair. */
  lemma ParseAsWrittenDropsPair()
    ensures Encode([Language(5, []), Language(3, [97])]) == [5, 0, 3, 97, 0, 0]
    ensures Parse([5, 0, 3, 97, 0, 0], 0) == Some([Language(5, []), Language(3, [97])])
    ensures ParseAsWritten([5, 0, 3, 97, 0, 0], 0) == Some([Language(5, [])])
  {
    var buf: seq<byte> := [5, 0, 3, 97, 0, 0];
    DecodeEncode([Language(5, []), Language(3, [97])]);
    FindNulAt(buf, 2, 4);
    assert ParseAsWritten(buf, 5) == Some([]);
    assert CStr(buf[1..]) == [];
    ParseAsWrittenStep(buf, 0, 4, []);
    assert [Language(5, [])] + [] == [Language(5, [])];
  }

  /** The type checks `!lua_type(L, -1) == LUA_TTABLE` (and NUMBER, STRING)
      as C parses them: `(!lua_type(L, -1)) == expected`. */
  predicate WrongTypeAsWritten(v: LuaVal, expected: LuaType) {
    (if TypeCode(TypeOf(v)) == 0 then 1 else 0) == TypeCode(expected)
  }

  /** `!x` is 0 or 1, and the table, number and string codes are neither,
      so the checks as written never reject a value. */
  lemma WrongTypeAsWrittenNeverFires(v: LuaVal, expected: LuaType)
    requires expected == TTable || expected == TNumber || expected == TString
    ensures !WrongTypeAsWritten(v, expected)
    ensures WrongType(v, expected) <==> TypeOf(v) != expected
  {
  }

  /** The growth rule as written: enlarge only when the name itself would
      not fit, `bufsz < pos + strlen(name)`. */
  function GrowAsWritten(bufsz: nat, pos: nat, len: nat): (n: nat)
    ensures pos + len <= n
  {
    if bufsz < pos + len then pos + len + 10 else bufsz
  }

  /** When `bufsz` is `pos + strlen(name)` or one more, the buffer is not
      grown, and either the NUL `strcpy` writes after the name or the next
      byte written (priority or terminator) lands at index `bufsz`. */
  lemma GrowAsWrittenOverflows(bufsz: nat, pos: nat, len: nat)
    requires bufsz == pos + len || bufsz == pos + len + 1
    ensures GrowAsWritten(bufsz, pos, len) == bufsz
    ensures pos + len + 1 >= GrowAsWritten(bufsz, pos, len)
    ensures pos + len + 1 < GrownSize(bufsz, pos, len)
  {
  }

  /** Input that shows it: a first entry `{ { [2] = "abcdefghijklmno" } }`.
      As written, the stack reads make the priority `(char)` of a table, 0,
      and the name the inner table's [2], 15 bytes. After the priority byte
      pos is 1, 16 < 1 + 15 is false, and `strcpy` writes the NUL at index
      16 of the 16-byte buffer. */
  lemma GrowAsWrittenFirstPair()
    ensures GrowAsWritten(16, 1, 15) == 16 && 1 + 15 >= 16
  {
  }
}
