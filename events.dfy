/** The event codec: `espeak_EVENT` records to Lua tables (push_event) and
    back (get_event). */
module Events {
  import opened Values
  import opened Lua
  import opened Heap

  /** The `espeak_EVENT_TYPE` values of the engine's speak_lib.h that the
      codec tests for. */
  const ListTerminated: int := 0
  const Word: int := 1
  const Sentence: int := 2
  const Mark: int := 3
  const Play: int := 4

  /** Event kinds whose `id` is the number of a word or sentence. */
  predicate NumberPayload(kind: int) {
    kind == Word || kind == Sentence
  }

  /** Event kinds whose `id` is the name of a mark or of a sound file. */
  predicate NamePayload(kind: int) {
    kind == Mark || kind == Play
  }

  /** The `id` union of an event: a number, or a C string that may be NULL. */
  datatype EventId = Number(number: int) | Name(name: Option<CString>)

  /** An `espeak_EVENT`; `userData` stands for the opaque `user_data` pointer. */
  datatype Event = Event(
    eventType: int,
    uniqueIdentifier: int,
    textPosition: int,
    length: int,
    audioPosition: int,
    sample: int,
    userData: Option<nat>,
    id: EventId)

  /** The six numeric fields of an event. */
  datatype Scalar = Type | UniqueIdentifier | TextPosition | Length | AudioPosition | Sample

  /** The numeric fields in the order get_event reads them. */
  const Scalars: seq<Scalar> := [Type, UniqueIdentifier, TextPosition, Length, AudioPosition, Sample]

  /** The table key of each numeric field. */
  function FieldName(s: Scalar): string {
    match s
    case Type => "type"
    case UniqueIdentifier => "unique_identifier"
    case TextPosition => "text_position"
    case Length => "length"
    case AudioPosition => "audio_position"
    case Sample => "sample"
  }

  /** The error get_event raises for a numeric field of the wrong type
      (the one for `length` is spelt "lenght" in the code). */
  function Message(s: Scalar): string {
    match s
    case Type => "Bad event type"
    case UniqueIdentifier => "Bad event 'unique_identifier'"
    case TextPosition => "Bad event 'text_position'"
    case Length => "Bad event 'lenght'"
    case AudioPosition => "Bad event 'audio_position'"
    case Sample => "Bad event 'sample'"
  }

  const BadIdMessage: string := "Bad event 'id'"

  function Value(e: Event, s: Scalar): int {
    match s
    case Type => e.eventType
    case UniqueIdentifier => e.uniqueIdentifier
    case TextPosition => e.textPosition
    case Length => e.length
    case AudioPosition => e.audioPosition
    case Sample => e.sample
  }

  /** The record get_event initialises before reading any field. */
  const DefaultEvent: Event := Event(ListTerminated, 0, 0, 0, 0, 0, None, Number(0))

  // ---------------------------------------------------------------------
  // get_event
  // ---------------------------------------------------------------------

  /** One optional numeric field: nil keeps the default, a number replaces
      it, any other value is an error. */
  function ReadNumber(t: map<Key, LuaVal>, s: Scalar): Result<int> {
    var v := Get(t, Field(FieldName(s)));
    if v.Nil? then Ok(Value(DefaultEvent, s))
    else if TypeOf(v) == TNumber then Ok(v.n)
    else Err(BadField(Message(s)))
  }

  /** The `id` field, read according to the kind already decoded: a number
      for words and sentences, a string (duplicated, so cut at its first
      NUL) for marks and plays, and not at all for other kinds. An absent
      `id` leaves the union as initialised, holding the number 0. */
  function ReadId(t: map<Key, LuaVal>, kind: int): Result<EventId> {
    var v := Get(t, Field("id"));
    if NumberPayload(kind) then
      if v.Nil? then Ok(Number(0))
      else if TypeOf(v) == TNumber then Ok(Number(v.n))
      else Err(BadField(BadIdMessage))
    else if NamePayload(kind) then
      if v.Nil? then Ok(Number(0))
      else if TypeOf(v) == TString then Ok(Name(Some(CStr(v.s))))
      else Err(BadField(BadIdMessage))
    else Ok(Number(0))
  }

  /** get_event's field-by-field reading, stopping at the first bad field. */
  function ReadEvent(t: map<Key, LuaVal>): Result<Event> {
    var kind := ReadNumber(t, Type);
    if kind.Err? then Err(kind.error) else
    var uid := ReadNumber(t, UniqueIdentifier);
    if uid.Err? then Err(uid.error) else
    var text := ReadNumber(t, TextPosition);
    if text.Err? then Err(text.error) else
    var len := ReadNumber(t, Length);
    if len.Err? then Err(len.error) else
    var audio := ReadNumber(t, AudioPosition);
    if audio.Err? then Err(audio.error) else
    var sample := ReadNumber(t, Sample);
    if sample.Err? then Err(sample.error) else
    var id := ReadId(t, kind.value);
    if id.Err? then Err(id.error) else
    Ok(Event(kind.value, uid.value, text.value, len.value, audio.value, sample.value, None, id.value))
  }

  /** The string duplicated for a name `id`, if one was. */
  function IdCopy(e: Event): multiset<Block> {
    if e.id.Name? then multiset{Copy("id")} else multiset{}
  }

  /** get_event: a non-table argument is rejected before anything is
      allocated; otherwise the record is allocated, freed again when a
      field is bad, and handed to the caller otherwise. */
  function GetEvent(arg: LuaVal): Decoded<Event> {
    if !arg.Table? then Decoded(Err(NotATable), multiset{}, multiset{})
    else
      match ReadEvent(arg.fields)
      case Err(e) => Decoded(Err(e), multiset{Record}, multiset{Record})
      case Ok(ev) => Decoded(Ok(ev), multiset{Record} + IdCopy(ev), multiset{})
  }

  // ---------------------------------------------------------------------
  // What get_event accepts and what it reads
  // ---------------------------------------------------------------------

  predicate NumberOrNil(v: LuaVal) {
    v.Nil? || v.Num?
  }

  /** The kind a table describes: its `type` number, or the default. */
  function KindOf(t: map<Key, LuaVal>): int {
    var v := Get(t, Field("type"));
    if v.Num? then v.n else ListTerminated
  }

  /** An `id` get_event accepts for the kind the table describes. */
  predicate IdAcceptable(t: map<Key, LuaVal>) {
    var v := Get(t, Field("id"));
    (NumberPayload(KindOf(t)) ==> NumberOrNil(v)) &&
    (NamePayload(KindOf(t)) ==> v.Nil? || v.Str?)
  }

  /** A table get_event accepts: every numeric field absent or a number,
      and an acceptable `id`. */
  predicate EventShaped(t: map<Key, LuaVal>) {
    (forall s: Scalar :: NumberOrNil(Get(t, Field(FieldName(s))))) && IdAcceptable(t)
  }

  lemma ReadNumberOk(t: map<Key, LuaVal>, s: Scalar)
    ensures ReadNumber(t, s).Ok? <==> NumberOrNil(Get(t, Field(FieldName(s))))
    ensures ReadNumber(t, s).Err? ==> ReadNumber(t, s).error == BadField(Message(s))
  {
  }

  /** ReadEvent is the six numeric reads and the `id` read, put together:
      it yields `e` exactly when each read yields e's field. */
  lemma ReadEventIff(t: map<Key, LuaVal>, e: Event)
    ensures ReadEvent(t) == Ok(e) <==>
      && (forall s: Scalar :: ReadNumber(t, s) == Ok(Value(e, s)))
      && ReadId(t, e.eventType) == Ok(e.id)
      && e.userData == None
  {
    if ReadEvent(t) == Ok(e) {
      forall s: Scalar ensures ReadNumber(t, s) == Ok(Value(e, s)) {
        match s
        case Type =>
        case UniqueIdentifier =>
        case TextPosition =>
        case Length =>
        case AudioPosition =>
        case Sample =>
      }
    }
    if (forall s: Scalar :: ReadNumber(t, s) == Ok(Value(e, s))) && ReadId(t, e.eventType) == Ok(e.id) && e.userData == None {
      assert ReadNumber(t, Type) == Ok(e.eventType);
      assert ReadNumber(t, UniqueIdentifier) == Ok(e.uniqueIdentifier);
      assert ReadNumber(t, TextPosition) == Ok(e.textPosition);
      assert ReadNumber(t, Length) == Ok(e.length);
      assert ReadNumber(t, AudioPosition) == Ok(e.audioPosition);
      assert ReadNumber(t, Sample) == Ok(e.sample);
    }
  }

  /** Two tables whose reads agree decode alike, errors included. */
  lemma ReadEventCongruent(t: map<Key, LuaVal>, t': map<Key, LuaVal>)
    requires forall s: Scalar :: ReadNumber(t', s) == ReadNumber(t, s)
    requires ReadNumber(t, Type).Ok? ==> ReadId(t', ReadNumber(t, Type).value) == ReadId(t, ReadNumber(t, Type).value)
    ensures ReadEvent(t') == ReadEvent(t)
  {
    assert ReadNumber(t', Type) == ReadNumber(t, Type);
    assert ReadNumber(t', UniqueIdentifier) == ReadNumber(t, UniqueIdentifier);
    assert ReadNumber(t', TextPosition) == ReadNumber(t, TextPosition);
    assert ReadNumber(t', Length) == ReadNumber(t, Length);
    assert ReadNumber(t', AudioPosition) == ReadNumber(t, AudioPosition);
    assert ReadNumber(t', Sample) == ReadNumber(t, Sample);
  }

  /** get_event succeeds exactly on the tables shaped as above. */
  lemma GetEventAccepts(t: map<Key, LuaVal>)
    ensures GetEvent(Table(t)).result.Ok? <==> EventShaped(t)
  {
    forall s: Scalar {
      ReadNumberOk(t, s);
    }
    if EventShaped(t) {
      assert NumberOrNil(Get(t, Field(FieldName(Type))));
      assert NumberOrNil(Get(t, Field(FieldName(UniqueIdentifier))));
      assert NumberOrNil(Get(t, Field(FieldName(TextPosition))));
      assert NumberOrNil(Get(t, Field(FieldName(Length))));
      assert NumberOrNil(Get(t, Field(FieldName(AudioPosition))));
      assert NumberOrNil(Get(t, Field(FieldName(Sample))));
    }
    if GetEvent(Table(t)).result.Ok? {
      forall s: Scalar ensures NumberOrNil(Get(t, Field(FieldName(s)))) {
        match s
        case Type =>
        case UniqueIdentifier =>
        case TextPosition =>
        case Length =>
        case AudioPosition =>
        case Sample =>
      }
    }
  }

  /** A bad numeric field fails get_event with that field's message,
      provided the fields read before it were fine; the record is freed. */
  lemma GetEventFirstError(t: map<Key, LuaVal>, i: nat)
    requires i < |Scalars|
    requires forall j :: 0 <= j < i ==> NumberOrNil(Get(t, Field(FieldName(Scalars[j]))))
    requires !NumberOrNil(Get(t, Field(FieldName(Scalars[i]))))
    ensures GetEvent(Table(t)).result == Err(BadField(Message(Scalars[i])))
    ensures Balanced(GetEvent(Table(t)))
  {
    forall j | 0 <= j <= i {
      ReadNumberOk(t, Scalars[j]);
    }
    if i >= 1 { assert NumberOrNil(Get(t, Field(FieldName(Scalars[0])))); }
    if i >= 2 { assert NumberOrNil(Get(t, Field(FieldName(Scalars[1])))); }
    if i >= 3 { assert NumberOrNil(Get(t, Field(FieldName(Scalars[2])))); }
    if i >= 4 { assert NumberOrNil(Get(t, Field(FieldName(Scalars[3])))); }
    if i >= 5 { assert NumberOrNil(Get(t, Field(FieldName(Scalars[4])))); }
  }

  /** With the numeric fields fine, an `id` of the wrong type for the kind
      fails get_event with the `id` message; the record is freed. */
  lemma GetEventIdError(t: map<Key, LuaVal>)
    requires forall s: Scalar :: NumberOrNil(Get(t, Field(FieldName(s))))
    requires !IdAcceptable(t)
    ensures GetEvent(Table(t)).result == Err(BadField(BadIdMessage))
    ensures Balanced(GetEvent(Table(t)))
  {
    assert NumberOrNil(Get(t, Field(FieldName(Type))));
    assert NumberOrNil(Get(t, Field(FieldName(UniqueIdentifier))));
    assert NumberOrNil(Get(t, Field(FieldName(TextPosition))));
    assert NumberOrNil(Get(t, Field(FieldName(Length))));
    assert NumberOrNil(Get(t, Field(FieldName(AudioPosition))));
    assert NumberOrNil(Get(t, Field(FieldName(Sample))));
  }

  /** What a successful get_event holds: each numeric field is the table's
      number or the default, there is no user data, and the `id` is read
      only for the kinds that carry one. */
  lemma GetEventValues(t: map<Key, LuaVal>)
    requires GetEvent(Table(t)).result.Ok?
    ensures var e := GetEvent(Table(t)).result.value;
      && (forall s: Scalar :: Value(e, s) ==
            if Get(t, Field(FieldName(s))).Num? then Get(t, Field(FieldName(s))).n else Value(DefaultEvent, s))
      && e.eventType == KindOf(t)
      && e.userData == None
      && (NumberPayload(e.eventType) && Get(t, Field("id")).Num? ==> e.id == Number(Get(t, Field("id")).n))
      && (NamePayload(e.eventType) && Get(t, Field("id")).Str? ==> e.id == Name(Some(CStr(Get(t, Field("id")).s))))
      && (Get(t, Field("id")).Nil? ==> e.id == Number(0))
      && (!NumberPayload(e.eventType) && !NamePayload(e.eventType) ==> e.id == Number(0))
  {
    var e := GetEvent(Table(t)).result.value;
    forall s: Scalar ensures Value(e, s) ==
        if Get(t, Field(FieldName(s))).Num? then Get(t, Field(FieldName(s))).n else Value(DefaultEvent, s)
    {
      match s
      case Type =>
      case UniqueIdentifier =>
      case TextPosition =>
      case Length =>
      case AudioPosition =>
      case Sample =>
    }
  }

  /** With every field absent, get_event returns the defaults. */
  lemma GetEventDefaults()
    ensures GetEvent(Table(map[])).result == Ok(DefaultEvent)
    ensures DefaultEvent.eventType == ListTerminated && DefaultEvent.userData == None
    ensures forall s: Scalar :: s != Type ==> Value(DefaultEvent, s) == 0
    ensures DefaultEvent.id == Number(0)
  {
  }

  /** The `id` field plays no part for kinds other than the four that
      carry one: replacing it changes nothing. */
  lemma GetEventIgnoresId(t: map<Key, LuaVal>, v: LuaVal)
    requires !NumberPayload(KindOf(t)) && !NamePayload(KindOf(t))
    ensures GetEvent(Table(t[Field("id") := v])) == GetEvent(Table(t))
  {
    var t' := t[Field("id") := v];
    forall s: Scalar ensures ReadNumber(t', s) == ReadNumber(t, s) {
      assert Field(FieldName(s)) != Field("id");
      assert Get(t', Field(FieldName(s))) == Get(t, Field(FieldName(s)));
    }
    assert Get(t', Field("type")) == Get(t, Field("type"));
    ReadEventCongruent(t, t');
  }

  /** Nothing leaks: a non-table is rejected before anything is allocated;
      a failed get_event frees the record it allocated; a
      successful one hands over the record and, exactly when it read a
      name `id`, the duplicated string, and frees nothing. */
  lemma GetEventHeap(arg: LuaVal)
    ensures GetEvent(arg).result.Err? ==> Balanced(GetEvent(arg))
    ensures GetEvent(arg).result == Err(NotATable) <==> !arg.Table?
    ensures !arg.Table? ==> GetEvent(arg).acquired == multiset{} && GetEvent(arg).released == multiset{}
    ensures GetEvent(arg).result.Ok? ==>
      && GetEvent(arg).released == multiset{}
      && GetEvent(arg).acquired ==
           multiset{Record} +
           if NamePayload(GetEvent(arg).result.value.eventType) && Get(arg.fields, Field("id")).Str?
           then multiset{Copy("id")} else multiset{}
  {
    if arg.Table? && ReadEvent(arg.fields).Ok? {
      ReadEventIff(arg.fields, ReadEvent(arg.fields).value);
    }
  }

  // ---------------------------------------------------------------------
  // push_event
  // ---------------------------------------------------------------------

  /** The union is read through the view the kind selects, so it must hold
      that view. */
  predicate WellFormedEvent(e: Event) {
    (NumberPayload(e.eventType) ==> e.id.Number?) &&
    (NamePayload(e.eventType) ==> e.id.Name?)
  }

  /** The `id` entry push_event adds, if any: a NULL name becomes "". */
  function IdEntry(e: Event): Option<LuaVal>
    requires WellFormedEvent(e)
  {
    if NumberPayload(e.eventType) then Some(Num(e.id.number))
    else if NamePayload(e.eventType) then
      Some(Str(match e.id.name case Some(n) => n case None => []))
    else None
  }

  /** push_event: a fresh table with the six numeric fields, and the `id`
      entry for the kinds that carry one. */
  function PushEvent(e: Event): LuaVal
    requires WellFormedEvent(e)
  {
    var scalars := map[
      Field("type") := Num(e.eventType),
      Field("unique_identifier") := Num(e.uniqueIdentifier),
      Field("text_position") := Num(e.textPosition),
      Field("length") := Num(e.length),
      Field("audio_position") := Num(e.audioPosition),
      Field("sample") := Num(e.sample)];
    match IdEntry(e)
    case Some(v) => Table(scalars[Field("id") := v])
    case None => Table(scalars)
  }

  /** push_event always emits the numeric fields, emits `id` as a number
      for words and sentences and as a string for marks and plays, and
      nothing else. */
  lemma PushEventFields(e: Event)
    requires WellFormedEvent(e)
    ensures PushEvent(e).Table?
    ensures forall s: Scalar :: Get(PushEvent(e).fields, Field(FieldName(s))) == Num(Value(e, s))
    ensures NumberPayload(e.eventType) ==> Get(PushEvent(e).fields, Field("id")) == Num(e.id.number)
    ensures NamePayload(e.eventType) && e.id.name.Some? ==> Get(PushEvent(e).fields, Field("id")) == Str(e.id.name.value)
    ensures NamePayload(e.eventType) && e.id.name.None? ==> Get(PushEvent(e).fields, Field("id")) == Str([])
    ensures !NumberPayload(e.eventType) && !NamePayload(e.eventType) ==> Field("id") !in PushEvent(e).fields
    ensures forall k :: k in PushEvent(e).fields ==> k == Field("id") || exists s: Scalar :: k == Field(FieldName(s))
  {
    var t := PushEvent(e).fields;
    forall k | k in t ensures k == Field("id") || exists s: Scalar :: k == Field(FieldName(s)) {
      if k == Field("type") { assert k == Field(FieldName(Type)); }
      else if k == Field("unique_identifier") { assert k == Field(FieldName(UniqueIdentifier)); }
      else if k == Field("text_position") { assert k == Field(FieldName(TextPosition)); }
      else if k == Field("length") { assert k == Field(FieldName(Length)); }
      else if k == Field("audio_position") { assert k == Field(FieldName(AudioPosition)); }
      else if k == Field("sample") { assert k == Field(FieldName(Sample)); }
    }
  }

  // ---------------------------------------------------------------------
  // The round trip
  // ---------------------------------------------------------------------

  /** The event get_event rebuilds from push_event's table: the `id` of a
      kind that carries none is dropped to the initial 0, and a NULL name
      comes back as the empty string. */
  function Canonical(e: Event): Event
    requires WellFormedEvent(e)
  {
    var id :=
      if NumberPayload(e.eventType) then e.id
      else if NamePayload(e.eventType) then Name(Some(match e.id.name case Some(n) => n case None => []))
      else Number(0);
    e.(userData := None, id := id)
  }

  /** Pushing an event and getting it back gives the canonical event, and
      heap blocks only for the record and a name copy. */
  lemma EventRoundTrip(e: Event)
    requires WellFormedEvent(e)
    ensures GetEvent(PushEvent(e)).result == Ok(Canonical(e))
    ensures GetEvent(PushEvent(e)).acquired ==
      multiset{Record} + if NamePayload(e.eventType) then multiset{Copy("id")} else multiset{}
  {
    var t := PushEvent(e).fields;
    var c := Canonical(e);
    PushEventFields(e);
    forall s: Scalar ensures ReadNumber(t, s) == Ok(Value(c, s)) {
      assert Get(t, Field(FieldName(s))) == Num(Value(e, s));
    }
    assert ReadId(t, c.eventType) == Ok(c.id);
    ReadEventIff(t, c);
  }

  /** For the kinds that carry an `id`, with a non-NULL name and no user
      data, get_event(push_event(e)) is e itself. */
  lemma EventRoundTripExact(e: Event)
    requires WellFormedEvent(e) && e.userData == None
    requires NumberPayload(e.eventType) || NamePayload(e.eventType)
    requires e.id.Name? ==> e.id.name.Some?
    ensures GetEvent(PushEvent(e)).result == Ok(e)
  {
    EventRoundTrip(e);
  }

  /** Going the other way, a table get_event accepts and push_event
      rebuilds holds the numbers it held. */
  lemma TableRoundTrip(t: map<Key, LuaVal>)
    requires GetEvent(Table(t)).result.Ok? && WellFormedEvent(GetEvent(Table(t)).result.value)
    ensures forall s: Scalar :: Get(t, Field(FieldName(s))).Num? ==>
      Get(PushEvent(GetEvent(Table(t)).result.value).fields, Field(FieldName(s))) == Get(t, Field(FieldName(s)))
  {
    GetEventValues(t);
    PushEventFields(GetEvent(Table(t)).result.value);
  }
}
