/** The voice codec: `espeak_VOICE` records to Lua tables (push_voice), back
    (get_voice), and their release (free_voice). A voice's `languages`
    field has two forms: the packed priority list of a listed voice, which
    push_voice expands, and the plain language string of a voice used as a
    search filter, which get_voice reads. */
module Voices {
  import opened Values
  import opened Lua
  import opened Heap
  import LanguageList

  /** An `espeak_VOICE`; each string field may be NULL. */
  datatype Voice = Voice(
    name: Option<CString>,
    languages: Option<seq<byte>>,
    identifier: Option<CString>,
    gender: int,
    age: int,
    variant: int)

  /** The record get_voice initialises before reading any field. */
  const DefaultVoice: Voice := Voice(None, None, None, 0, 0, 0)

  /** The fields of a voice table, in the order get_voice reads them. */
  datatype VoiceField = NameField | IdentifierField | LanguagesField | GenderField | AgeField | VariantField

  const VoiceFields: seq<VoiceField> :=
    [NameField, IdentifierField, LanguagesField, GenderField, AgeField, VariantField]

  function FieldName(f: VoiceField): string {
    match f
    case NameField => "name"
    case IdentifierField => "identifier"
    case LanguagesField => "languages"
    case GenderField => "gender"
    case AgeField => "age"
    case VariantField => "variant"
  }

  /** The error get_voice raises for a field of the wrong type. */
  function Message(f: VoiceField): string {
    match f
    case NameField => "Bad voice name."
    case IdentifierField => "Bad voice 'identifier' field."
    case LanguagesField => "Bad voice 'languages' field."
    case GenderField => "Bad voice 'gender' field"
    case AgeField => "Bad voice 'age' field"
    case VariantField => "Bad voice 'variant' field"
  }

  /** The string fields; the others are numbers. */
  predicate IsStringField(f: VoiceField) {
    f == NameField || f == IdentifierField || f == LanguagesField
  }

  // ---------------------------------------------------------------------
  // free_voice and get_voice
  // ---------------------------------------------------------------------

  /** free_voice: the record and each of its non-NULL strings, freed in
      the order name, languages, identifier. */
  function FreeVoice(v: Voice): multiset<Block> {
    multiset{Record} + Dup(v.name.Some?, NameField) + Dup(v.languages.Some?, LanguagesField) + Dup(v.identifier.Some?, IdentifierField)
  }

  /** `lua_getfield` of one field of the voice table. */
  function Entry(t: map<Key, LuaVal>, f: VoiceField): LuaVal {
    Get(t, Field(FieldName(f)))
  }

  /** One optional string field: nil leaves it NULL, a string is
      duplicated (so cut at its first NUL), anything else is an error. */
  function ReadString(t: map<Key, LuaVal>, f: VoiceField): Result<Option<CString>> {
    var v := Entry(t, f);
    if v.Nil? then Ok(None)
    else if TypeOf(v) == TString then Ok(Some(CStr(v.s)))
    else Err(BadField(Message(f)))
  }

  /** One optional numeric field: nil leaves it 0. */
  function ReadInt(t: map<Key, LuaVal>, f: VoiceField): Result<int> {
    var v := Entry(t, f);
    if v.Nil? then Ok(0)
    else if TypeOf(v) == TNumber then Ok(v.n)
    else Err(BadField(Message(f)))
  }

  /** The block `strdup` allocates when a string field is read. */
  function Dup(present: bool, f: VoiceField): multiset<Block> {
    if present then multiset{Copy(FieldName(f))} else multiset{}
  }

  /** A bad field: free_voice releases what the partly filled record holds. */
  function Fail(acquired: multiset<Block>, partial: Voice, e: DecodeError): Decoded<Voice> {
    Decoded(Err(e), acquired, FreeVoice(partial))
  }

  /** The first half of get_voice: the record is allocated after the
      argument check, then name, identifier and languages are read, each
      string duplicated as it is read. */
  function GetStrings(t: map<Key, LuaVal>): Decoded<Voice> {
    FillStrings(ReadString(t, NameField), ReadString(t, IdentifierField), ReadString(t, LanguagesField))
  }

  /** The record the first half fills from what each string read gave. */
  function FillStrings(name: Result<Option<CString>>, ident: Result<Option<CString>>, langs: Result<Option<CString>>): Decoded<Voice> {
    if name.Err? then Fail(multiset{Record}, DefaultVoice, name.error) else
    var a1 := multiset{Record} + Dup(name.value.Some?, NameField);
    if ident.Err? then Fail(a1, DefaultVoice.(name := name.value), ident.error) else
    var a2 := a1 + Dup(ident.value.Some?, IdentifierField);
    if langs.Err? then Fail(a2, DefaultVoice.(name := name.value, identifier := ident.value), langs.error) else
    Decoded(Ok(Voice(name.value, langs.value, ident.value, 0, 0, 0)), a2 + Dup(langs.value.Some?, LanguagesField), multiset{})
  }

  /** The second half of get_voice: gender, age and variant into the
      record `v`, whose blocks so far are `acquired`. */
  function GetNumbers(t: map<Key, LuaVal>, v: Voice, acquired: multiset<Block>): Decoded<Voice> {
    FillNumbers(v, acquired, ReadInt(t, GenderField), ReadInt(t, AgeField), ReadInt(t, VariantField))
  }

  /** The record the second half fills from what each numeric read gave. */
  function FillNumbers(v: Voice, acquired: multiset<Block>, gender: Result<int>, age: Result<int>, variant: Result<int>): Decoded<Voice> {
    if gender.Err? then Fail(acquired, v, gender.error) else
    if age.Err? then Fail(acquired, v.(gender := gender.value), age.error) else
    if variant.Err? then Fail(acquired, v.(gender := gender.value, age := age.value), variant.error) else
    Decoded(Ok(v.(gender := gender.value, age := age.value, variant := variant.value)), acquired, multiset{})
  }

  /** get_voice: the fields one by one, in the order name, identifier,
      languages, gender, age, variant; on a bad field the partly filled
      record is released with free_voice. */
  function GetVoice(arg: LuaVal): Decoded<Voice> {
    if !arg.Table? then Decoded(Err(NotATable), multiset{}, multiset{})
    else
      var d := GetStrings(arg.fields);
      if d.result.Err? then d else GetNumbers(arg.fields, d.result.value, d.acquired)
  }

  // ---------------------------------------------------------------------
  // What get_voice accepts and what it reads
  // ---------------------------------------------------------------------

  /** A value get_voice accepts for field `f`. */
  predicate Acceptable(f: VoiceField, v: LuaVal) {
    v.Nil? || (if IsStringField(f) then v.Str? else v.Num?)
  }

  predicate StringsShaped(t: map<Key, LuaVal>) {
    && Acceptable(NameField, Entry(t, NameField))
    && Acceptable(IdentifierField, Entry(t, IdentifierField))
    && Acceptable(LanguagesField, Entry(t, LanguagesField))
  }

  predicate NumbersShaped(t: map<Key, LuaVal>) {
    && Acceptable(GenderField, Entry(t, GenderField))
    && Acceptable(AgeField, Entry(t, AgeField))
    && Acceptable(VariantField, Entry(t, VariantField))
  }

  /** Every field of the table is one get_voice accepts. */
  predicate VoiceShaped(t: map<Key, LuaVal>) {
    forall f: VoiceField :: Acceptable(f, Entry(t, f))
  }

  /** The string get_voice keeps for a string field of the table. */
  function StringIn(t: map<Key, LuaVal>, f: VoiceField): Option<CString> {
    var v := Entry(t, f);
    if v.Str? then Some(CStr(v.s)) else None
  }

  /** The number get_voice keeps for a numeric field of the table. */
  function NumberIn(t: map<Key, LuaVal>, f: VoiceField): int {
    var v := Entry(t, f);
    if v.Num? then v.n else 0
  }

  lemma ReadStringOk(t: map<Key, LuaVal>, f: VoiceField)
    requires IsStringField(f)
    ensures ReadString(t, f).Ok? <==> Acceptable(f, Entry(t, f))
    ensures ReadString(t, f).Ok? ==> ReadString(t, f).value == StringIn(t, f)
    ensures ReadString(t, f).Err? ==> ReadString(t, f).error == BadField(Message(f))
  {
  }

  lemma ReadIntOk(t: map<Key, LuaVal>, f: VoiceField)
    requires !IsStringField(f)
    ensures ReadInt(t, f).Ok? <==> Acceptable(f, Entry(t, f))
    ensures ReadInt(t, f).Ok? ==> ReadInt(t, f).value == NumberIn(t, f)
    ensures ReadInt(t, f).Err? ==> ReadInt(t, f).error == BadField(Message(f))
  {
  }

  /** The string half succeeds exactly on well-typed string fields, and
      holds the acquired copies in the record it returns. */
  lemma GetStringsOk(t: map<Key, LuaVal>)
    ensures GetStrings(t).result.Ok? <==> StringsShaped(t)
    ensures GetStrings(t).result.Ok? ==>
      GetStrings(t).result.value == Voice(StringIn(t, NameField), StringIn(t, LanguagesField), StringIn(t, IdentifierField), 0, 0, 0)
  {
    ReadStringOk(t, NameField);
    ReadStringOk(t, IdentifierField);
    ReadStringOk(t, LanguagesField);
  }

  lemma SwapLast(a: multiset<Block>, b: multiset<Block>, c: multiset<Block>)
    ensures a + b + c == a + c + b
  {
  }

  lemma FillStringsHeap(name: Result<Option<CString>>, ident: Result<Option<CString>>, langs: Result<Option<CString>>)
    ensures FillStrings(name, ident, langs).result.Err? ==> Balanced(FillStrings(name, ident, langs))
    ensures FillStrings(name, ident, langs).result.Ok? ==>
      && FillStrings(name, ident, langs).released == multiset{}
      && FillStrings(name, ident, langs).acquired == FreeVoice(FillStrings(name, ident, langs).result.value)
  {
    var d := FillStrings(name, ident, langs);
    if d.result.Ok? {
      var v := d.result.value;
      SwapLast(multiset{Record} + Dup(v.name.Some?, NameField), Dup(v.identifier.Some?, IdentifierField), Dup(v.languages.Some?, LanguagesField));
    }
  }

  /** The numeric half succeeds exactly on well-typed numeric fields, only
      sets the numbers, and on failure releases the record `v` it was
      given. */
  lemma GetNumbersOk(t: map<Key, LuaVal>, v: Voice, acquired: multiset<Block>)
    ensures GetNumbers(t, v, acquired).result.Ok? <==> NumbersShaped(t)
    ensures GetNumbers(t, v, acquired).acquired == acquired
    ensures GetNumbers(t, v, acquired).result.Ok? ==>
      && GetNumbers(t, v, acquired).result.value ==
        v.(gender := NumberIn(t, GenderField), age := NumberIn(t, AgeField), variant := NumberIn(t, VariantField))
      && GetNumbers(t, v, acquired).released == multiset{}
    ensures GetNumbers(t, v, acquired).result.Err? ==> GetNumbers(t, v, acquired).released == FreeVoice(v)
  {
    ReadIntOk(t, GenderField);
    ReadIntOk(t, AgeField);
    ReadIntOk(t, VariantField);
  }

  lemma VoiceShapedHalves(t: map<Key, LuaVal>)
    ensures VoiceShaped(t) <==> StringsShaped(t) && NumbersShaped(t)
  {
    if StringsShaped(t) && NumbersShaped(t) {
      forall f: VoiceField ensures Acceptable(f, Entry(t, f)) {
        match f
        case NameField =>
        case IdentifierField =>
        case LanguagesField =>
        case GenderField =>
        case AgeField =>
        case VariantField =>
      }
    }
  }

  /** get_voice succeeds exactly on the tables whose name, identifier and
      languages are strings or absent and whose gender, age and variant
      are numbers or absent. */
  lemma GetVoiceAccepts(t: map<Key, LuaVal>)
    ensures GetVoice(Table(t)).result.Ok? <==> VoiceShaped(t)
  {
    GetStringsOk(t);
    if GetStrings(t).result.Ok? {
      GetNumbersOk(t, GetStrings(t).result.value, GetStrings(t).acquired);
    }
    VoiceShapedHalves(t);
  }

  /** What a successful get_voice holds: each string field is the table's
      string cut at its first NUL, or NULL (so `languages` is a plain
      string, not a priority list); each number is the table's, or 0. */
  lemma GetVoiceValues(t: map<Key, LuaVal>)
    requires GetVoice(Table(t)).result.Ok?
    ensures GetVoice(Table(t)).result.value ==
      Voice(StringIn(t, NameField), StringIn(t, LanguagesField), StringIn(t, IdentifierField),
            NumberIn(t, GenderField), NumberIn(t, AgeField), NumberIn(t, VariantField))
  {
    GetStringsOk(t);
    GetNumbersOk(t, GetStrings(t).result.value, GetStrings(t).acquired);
  }

  /** A string field of the wrong type fails get_voice with its message
      once the string fields before it were fine. */
  lemma GetStringsFirstError(t: map<Key, LuaVal>, i: nat)
    requires i < 3
    requires forall j :: 0 <= j < i ==> Acceptable(VoiceFields[j], Entry(t, VoiceFields[j]))
    requires !Acceptable(VoiceFields[i], Entry(t, VoiceFields[i]))
    ensures GetStrings(t).result == Err(BadField(Message(VoiceFields[i])))
  {
    ReadStringOk(t, NameField);
    ReadStringOk(t, IdentifierField);
    ReadStringOk(t, LanguagesField);
    if i >= 1 { assert Acceptable(VoiceFields[0], Entry(t, VoiceFields[0])); }
    if i >= 2 { assert Acceptable(VoiceFields[1], Entry(t, VoiceFields[1])); }
  }

  /** Likewise for a numeric field after the numeric fields before it. */
  lemma GetNumbersFirstError(t: map<Key, LuaVal>, v: Voice, acquired: multiset<Block>, i: nat)
    requires 3 <= i < 6
    requires forall j :: 3 <= j < i ==> Acceptable(VoiceFields[j], Entry(t, VoiceFields[j]))
    requires !Acceptable(VoiceFields[i], Entry(t, VoiceFields[i]))
    ensures GetNumbers(t, v, acquired).result == Err(BadField(Message(VoiceFields[i])))
  {
    ReadIntOk(t, GenderField);
    ReadIntOk(t, AgeField);
    ReadIntOk(t, VariantField);
    if i >= 4 { assert Acceptable(VoiceFields[3], Entry(t, VoiceFields[3])); }
    if i >= 5 { assert Acceptable(VoiceFields[4], Entry(t, VoiceFields[4])); }
  }

  /** A bad field fails get_voice with that field's message, provided the
      fields read before it were fine. */
  lemma GetVoiceFirstError(t: map<Key, LuaVal>, i: nat)
    requires i < |VoiceFields|
    requires forall j :: 0 <= j < i ==> Acceptable(VoiceFields[j], Entry(t, VoiceFields[j]))
    requires !Acceptable(VoiceFields[i], Entry(t, VoiceFields[i]))
    ensures GetVoice(Table(t)).result == Err(BadField(Message(VoiceFields[i])))
  {
    if i < 3 {
      GetStringsFirstError(t, i);
    } else {
      assert StringsShaped(t) by {
        assert Acceptable(VoiceFields[0], Entry(t, VoiceFields[0]));
        assert Acceptable(VoiceFields[1], Entry(t, VoiceFields[1]));
        assert Acceptable(VoiceFields[2], Entry(t, VoiceFields[2]));
      }
      GetStringsOk(t);
      GetNumbersFirstError(t, GetStrings(t).result.value, GetStrings(t).acquired, i);
    }
  }

  /** With every field absent, get_voice returns the defaults. */
  lemma GetVoiceDefaults()
    ensures GetVoice(Table(map[])).result == Ok(DefaultVoice)
    ensures DefaultVoice.name.None? && DefaultVoice.languages.None? && DefaultVoice.identifier.None?
    ensures DefaultVoice.gender == 0 && DefaultVoice.age == 0 && DefaultVoice.variant == 0
  {
    GetStringsOk(map[]);
    GetNumbersOk(map[], GetStrings(map[]).result.value, GetStrings(map[]).acquired);
  }

  lemma FillNumbersHeap(v: Voice, acquired: multiset<Block>, gender: Result<int>, age: Result<int>, variant: Result<int>)
    ensures FillNumbers(v, acquired, gender, age, variant).acquired == acquired
    ensures FillNumbers(v, acquired, gender, age, variant).result.Err? ==>
      FillNumbers(v, acquired, gender, age, variant).released == FreeVoice(v)
    ensures FillNumbers(v, acquired, gender, age, variant).result.Ok? ==>
      && FillNumbers(v, acquired, gender, age, variant).released == multiset{}
      && FreeVoice(FillNumbers(v, acquired, gender, age, variant).result.value) == FreeVoice(v)
  {
  }

  /** Nothing leaks: a failed get_voice releases every block it acquired,
      and the blocks of a successful one are exactly those free_voice
      releases afterwards. */
  lemma GetVoiceHeap(arg: LuaVal)
    ensures GetVoice(arg).result.Err? ==> Balanced(GetVoice(arg))
    ensures GetVoice(arg).result.Ok? ==>
      GetVoice(arg).released == multiset{} && GetVoice(arg).acquired == FreeVoice(GetVoice(arg).result.value)
  {
    if arg.Table? {
      var t := arg.fields;
      var d := GetStrings(t);
      FillStringsHeap(ReadString(t, NameField), ReadString(t, IdentifierField), ReadString(t, LanguagesField));
      if d.result.Ok? {
        FillNumbersHeap(d.result.value, d.acquired, ReadInt(t, GenderField), ReadInt(t, AgeField), ReadInt(t, VariantField));
      }
    }
  }

  /** get_voice reports a missing table only when its argument is not one;
      every other failure names a field. */
  lemma GetVoiceRejects(arg: LuaVal)
    ensures GetVoice(arg).result == Err(NotATable) <==> !arg.Table?
    ensures arg.Table? && GetVoice(arg).result.Err? ==> GetVoice(arg).result.error.BadField?
  {
    if arg.Table? {
      var t := arg.fields;
      ReadStringOk(t, NameField);
      ReadStringOk(t, IdentifierField);
      ReadStringOk(t, LanguagesField);
      ReadIntOk(t, GenderField);
      ReadIntOk(t, AgeField);
      ReadIntOk(t, VariantField);
    }
  }

  // ---------------------------------------------------------------------
  // push_voice
  // ---------------------------------------------------------------------

  /** push_voice walks `languages` as a packed list, so it must hold one. */
  predicate Pushable(v: Voice) {
    v.languages.Some? ==> LanguageList.Parse(v.languages.value, 0).Some?
  }

  /** The Lua table push_language_list builds from a packed list, each
      pair a key whose value is its position. */
  function LanguagesTable(buf: seq<byte>): LuaVal
    requires LanguageList.Parse(buf, 0).Some?
  {
    Table(LanguageList.ListTableAsWritten(LanguageList.Parse(buf, 0).value))
  }

  /** The list table as the binding documents it: pair i under index i. */
  function LanguagesTableCorrected(buf: seq<byte>): LuaVal
    requires LanguageList.Parse(buf, 0).Some?
  {
    Table(LanguageList.ListTable(LanguageList.Parse(buf, 0).value))
  }

  /** The entries every pushed voice has: identifier when non-NULL, and the
      three numbers. */
  function OtherEntries(v: Voice): map<Key, LuaVal> {
    var base := map[Field("gender") := Num(v.gender), Field("age") := Num(v.age), Field("variant") := Num(v.variant)];
    if v.identifier.Some? then base[Field("identifier") := Str(v.identifier.value)] else base
  }

  /** push_voice as written: the name when non-NULL, then the expanded
      language list under the key "name" as well, replacing the name. */
  function PushVoice(v: Voice): LuaVal
    requires Pushable(v)
  {
    var t0: map<Key, LuaVal> := map[];
    var t1 := if v.name.Some? then t0[Field("name") := Str(v.name.value)] else t0;
    var t2 := if v.languages.Some? then t1[Field("name") := LanguagesTable(v.languages.value)] else t1;
    Table(t2 + OtherEntries(v))
  }

  /** The entries push_voice emits: gender, age and variant always,
      identifier when non-NULL, under "name" the language list when there
      is one and otherwise the name when non-NULL, and nothing else (in
      particular no "languages" entry). */
  lemma PushVoiceFields(v: Voice)
    requires Pushable(v)
    ensures PushVoice(v).Table?
    ensures Get(PushVoice(v).fields, Field("gender")) == Num(v.gender)
    ensures Get(PushVoice(v).fields, Field("age")) == Num(v.age)
    ensures Get(PushVoice(v).fields, Field("variant")) == Num(v.variant)
    ensures Get(PushVoice(v).fields, Field("identifier")) == if v.identifier.Some? then Str(v.identifier.value) else Nil
    ensures Get(PushVoice(v).fields, Field("name")) ==
      if v.languages.Some? then LanguagesTable(v.languages.value)
      else if v.name.Some? then Str(v.name.value) else Nil
    ensures Field("languages") !in PushVoice(v).fields
    ensures forall k :: k in PushVoice(v).fields ==> k in {Field("name"), Field("identifier"), Field("gender"), Field("age"), Field("variant")}
  {
  }

  /** As written, a listed voice's name is lost: with a language list, the
      "name" entry is that list's table, and get_voice then rejects the
      pushed table because its name is not a string. */
  lemma PushVoiceLosesName(v: Voice)
    requires Pushable(v) && v.languages.Some?
    ensures v.name.Some? ==> Get(PushVoice(v).fields, Field("name")) != Str(v.name.value)
    ensures GetVoice(PushVoice(v)).result == Err(BadField(Message(NameField)))
  {
    PushVoiceFields(v);
    GetVoiceFirstError(PushVoice(v).fields, 0);
  }

  /** As written, the list table under "name" holds its pairs as keys, so
      get_language_list would read it back as the empty list. */
  lemma PushVoiceListUnreadable(v: Voice)
    requires Pushable(v) && v.languages.Some?
    ensures LanguageList.ReadLanguages(Get(PushVoice(v).fields, Field("name"))) == Ok([])
  {
    PushVoiceFields(v);
    LanguageList.ListTableAsWrittenReadsEmpty(LanguageList.Parse(v.languages.value, 0).value);
  }

  /** push_voice with the language list stored under "languages", the key
      the field has in the record and in get_voice. */
  function PushVoiceCorrected(v: Voice): LuaVal
    requires Pushable(v)
  {
    var t0: map<Key, LuaVal> := map[];
    var t1 := if v.name.Some? then t0[Field("name") := Str(v.name.value)] else t0;
    var t2 := if v.languages.Some? then t1[Field("languages") := LanguagesTableCorrected(v.languages.value)] else t1;
    Table(t2 + OtherEntries(v))
  }

  /** The corrected push keeps every field of the record under its own
      key: the name survives beside the language list. */
  lemma PushVoiceCorrectedFields(v: Voice)
    requires Pushable(v)
    ensures PushVoiceCorrected(v).Table?
    ensures Get(PushVoiceCorrected(v).fields, Field("name")) == if v.name.Some? then Str(v.name.value) else Nil
    ensures Get(PushVoiceCorrected(v).fields, Field("languages")) ==
      if v.languages.Some? then LanguagesTableCorrected(v.languages.value) else Nil
    ensures Get(PushVoiceCorrected(v).fields, Field("identifier")) == if v.identifier.Some? then Str(v.identifier.value) else Nil
    ensures Get(PushVoiceCorrected(v).fields, Field("gender")) == Num(v.gender)
    ensures Get(PushVoiceCorrected(v).fields, Field("age")) == Num(v.age)
    ensures Get(PushVoiceCorrected(v).fields, Field("variant")) == Num(v.variant)
  {
  }

  /** With the corrected push, get_language_list reads the "languages"
      entry back as the voice's list, and encodes it to the very bytes the
      voice's buffer starts with. */
  lemma PushVoiceCorrectedList(v: Voice)
    requires Pushable(v) && v.languages.Some?
    ensures LanguageList.ReadLanguages(Get(PushVoiceCorrected(v).fields, Field("languages"))) ==
      Ok(LanguageList.Parse(v.languages.value, 0).value)
    ensures LanguageList.Encode(LanguageList.Parse(v.languages.value, 0).value) <= v.languages.value
  {
    var buf := v.languages.value;
    var ls := LanguageList.Parse(buf, 0).value;
    PushVoiceCorrectedFields(v);
    LanguageList.ReadListTable(ls);
    LanguageList.EncodeDecode(buf, 0, ls);
  }

  /** The entries get_voice reads from a pushed voice without a
      language list. */
  lemma PushedEntries(v: Voice)
    requires v.languages.None?
    ensures var t := PushVoice(v).fields;
      && Entry(t, NameField) == (if v.name.Some? then Str(v.name.value) else Nil)
      && Entry(t, IdentifierField) == (if v.identifier.Some? then Str(v.identifier.value) else Nil)
      && Entry(t, LanguagesField) == Nil
      && Entry(t, GenderField) == Num(v.gender)
      && Entry(t, AgeField) == Num(v.age)
      && Entry(t, VariantField) == Num(v.variant)
  {
    PushVoiceFields(v);
  }

  /** Without a language list the two pushes agree. */
  lemma PushVoiceAgrees(v: Voice)
    requires v.languages.None?
    ensures PushVoice(v) == PushVoiceCorrected(v)
  {
  }

  /** Without a language list get_voice reads the pushed table back as
      the voice itself. */
  lemma VoiceRoundTrip(v: Voice)
    requires v.languages.None?
    ensures GetVoice(PushVoice(v)).result == Ok(v)
  {
    var t := PushVoice(v).fields;
    PushedEntries(v);
    assert StringsShaped(t) && NumbersShaped(t);
    VoiceShapedHalves(t);
    GetVoiceAccepts(t);
    GetVoiceValues(t);
  }
}
