# lua-espeak marshalling codec in Dafny

This project models the marshalling core of `luaespeak.c`, the Lua binding to the eSpeak speech synthesiser. It covers the code that converts eSpeak's C records to Lua tables and back:

- **Language lists.** A voice's `languages` field, as the engine fills it when it lists voices, is a packed buffer. Each run in it is a priority byte followed by a NUL-terminated language name, and one extra zero byte ends the list.
  - `push_language_list` is documented to turn the buffer into the Lua list `{ {priority, name}, ... }`. As written it builds the reverse table, with each pair table as a key and its position as the value (see Findings).
  - `get_language_list` writes such a list back into a buffer that grows on demand.
- **Events.** `get_event` reads an `espeak_EVENT` from a table. Every field is optional and has a default. The `id` union is read as a number or as a string depending on the event type already read. `push_event` writes an event into a table.
- **Voices.**
  - `get_voice` reads an `espeak_VOICE` used as a search filter; there `languages` is one plain string. It releases the partly built record with `free_voice` when a field has the wrong type.
  - `push_voice` writes a listed voice, whose `languages` is a packed list.

Modules:

- `Values`: bytes, `Option`, C strings (`CString`, NUL-free byte sequences), and the `char` conversions.
  - `CStr` is the view `strdup`/`strcpy`/`strlen` take of a Lua string: everything before its first NUL.
  - `SignedChar` is the signed `(int) char` read.
  - `ToByte` is the `(char)` cast.
- `Lua`: Lua values, tables as finite maps from keys (`Field(name)`, `Index(i)`, or a table used as a key, `TableKey(id, contents)`, compared by identity) to values, the dynamic types, and the decode errors. `Get` reads an absent key as nil.
- `Heap`: the C allocations of one decode. It records the multiset of blocks acquired (`malloc`, `strdup`) and the multiset released (`free`).
- `LanguageList`: the byte codec.
  - Bytes are modelled as arrays.
  - `PushLanguageList` and `GetLanguageList` are methods with loops, proved against the functions `Parse`, `Encode`, `ListTable` and `ReadLanguages`.
  - `GetLanguageList` writes into an `array<byte>` that it reallocates as it grows.
- `Events` and `Voices`: the schema readers and writers, as pure `Result`-returning functions over a table.

## Model

| member | source | states |
|---|---|---|
| LanguageList.Parse | luaespeak.c:262-286 | The packed buffer read as pairs: the corrected form of push_language_list's walk. Its properties are carried by ParseIff, DecodeEncode, EncodeDecode and PushLanguageList. |
| LanguageList.Encode | luaespeak.c:332-365 | The bytes get_language_list writes for a list: each pair's run, then a zero. Its properties are carried by DecodeEncode, EncodeDecode, EncodeEmpty and GetLanguageList. |
| LanguageList.ListTable | luaespeak.c:250-258 | The documented list table, pair i under index i: the corrected form of what push_language_list builds. Its properties are carried by ListTableAt, ReadListTable and PushLanguageList. |
| LanguageList.ListTableAsWritten | luaespeak.c:269-283 | The table push_language_list builds as written, each pair table a key and its position the value. Its properties are carried by ListTableAsWrittenAt and ListTableAsWrittenReadsEmpty. |
| LanguageList.ReadPair | luaespeak.c:313-359 | One entry read as a pair, with the corrected type checks in source order. Its properties are carried by StorePair, ReadStops and ReadListPairs. |
| LanguageList.ReadList | luaespeak.c:303-362 | The pairs read from index k up to the first nil, stopping at the first bad pair. Its properties are carried by ReadListPairs, ReadStops, ReadEnds and GetLanguageList. |
| LanguageList.ReadLanguages | luaespeak.c:295-367 | What get_language_list reads from its argument, after the table check. Its properties are carried by ReadListTable, ListTableAsWrittenReadsEmpty and GetLanguageList. |
| LanguageList.ParseAsWritten | luaespeak.c:262-286 | push_language_list's walk with the scan as written at line 280. Its properties are carried by ParseAsWrittenAgrees and ParseAsWrittenDropsPair. |
| LanguageList.WrongTypeAsWritten | luaespeak.c:313-340 | The type checks as C parses them. Its properties are carried by WrongTypeAsWrittenNeverFires. |
| LanguageList.PushLanguageList | luaespeak.c:262-286 | For every well-formed buffer, the table built is the list of its runs in buffer order, under indices 1..n (the documented orientation; see Left out). Each pair is the priority read through a signed `char` plus the name bytes. The walk stops at the first zero byte in priority position. |
| LanguageList.FindNul | luaespeak.c:280 | The NUL scan that line 280 is meant to make: a position it finds is at or after the start, inside the buffer, and holds a NUL. FindNulScan and FindNulAt add that it is the first such position. |
| LanguageList.SkipName | luaespeak.c:280 | The corrected inner scan (test, then advance) stops at the NUL that ends the name. |
| LanguageList.ParseIff | luaespeak.c:262-286 | The buffer holds the list `ls` at a position exactly when the encoding of `ls` is laid out there and no priority of `ls` is 0. This goes both ways. |
| LanguageList.DecodeEncode | luaespeak.c:250-258 | Decoding the encoding of any list with non-zero priorities gives the same pairs in the same order. |
| LanguageList.EncodeDecode | luaespeak.c:250-258 | Whatever decodes from a buffer is exactly the encoding found at that place, and its priorities are non-zero. |
| LanguageList.EncodeEmpty | luaespeak.c:268 | The empty list encodes as a single zero byte, and that byte decodes to the empty list. |
| LanguageList.ParseLaidOut | luaespeak.c:262-286 | A buffer laid out run by run as `ls`, with non-zero priorities, decodes to `ls`. |
| LanguageList.LaidOutParse | luaespeak.c:262-286 | Whatever decodes is laid out run by run in the buffer. |
| LanguageList.LaidOutEncoded | luaespeak.c:250-258 | A run-by-run layout is the encoding's bytes. |
| LanguageList.EncodedLaidOut | luaespeak.c:250-258 | The encoding's bytes are a run-by-run layout. |
| LanguageList.FindNulScan | luaespeak.c:280 | Every byte the name scan passes over is non-zero, so the name it delimits is a C string. |
| LanguageList.FindNulAt | luaespeak.c:280 | The scan finds the first NUL at or after its start. |
| LanguageList.RunsAppend | luaespeak.c:332-359 | Appending a pair's run to the runs so far gives the runs of the longer list. |
| LanguageList.ListTableAt | luaespeak.c:250-258 | The documented list table has a pair under each index 1..n and nothing under any other key. |
| LanguageList.ListTableAsWrittenAt | luaespeak.c:269-283 | The table as written has exactly one key per pair: the i-th pair table created, whose value is the number i. It has nothing under any index or field name. |
| LanguageList.ListTableAsWrittenReadsEmpty | luaespeak.c:282-283 | The table as written is read by get_language_list as the empty list, and for a non-empty list it differs from the documented table. |
| LanguageList.PushStep | luaespeak.c:268-285 | One iteration of push_language_list consumes exactly the next run of the buffer. |
| LanguageList.ReadListPairs | luaespeak.c:303-362 | A table holding pairs at k, k+1, ... followed by a nil reads back as those pairs. |
| LanguageList.ReadListTable | luaespeak.c:262-367 | The documented list table that push_language_list is meant to build is read back by get_language_list as the same list. Priority bytes survive the signed read and the `(char)` cast. |
| LanguageList.TableRoundTrip | luaespeak.c:262-367 | Encoding a documented list table and decoding the bytes gives the original list, provided no priority is 0. |
| LanguageList.GetLanguageList | luaespeak.c:288-367 | On a table whose pairs up to the first nil are all well typed, the result is exactly the packed encoding of those pairs. Otherwise it fails with the first bad pair's error, in source order: the pair message, then priority, then name. A non-table fails the argument check. Every write into the buffer stays in bounds. |
| LanguageList.StorePair | luaespeak.c:313-359 | One pair: the three type checks in source order, the priority byte stored before the name is checked, then the name and its NUL. A bad pair or priority leaves the buffer unchanged. A bad name leaves the priority byte written after the old prefix. On success the buffer holds the old prefix plus the pair's run. |
| LanguageList.PutByte | luaespeak.c:332 | `str[pos++] = priority`, and the final `str[pos] = '\0'`: the byte lands at `pos` and the prefix before it is unchanged. |
| LanguageList.AppendName | luaespeak.c:350-359 | The buffer is grown (if GrownSize calls for it) and the name is copied with its NUL after the prefix. |
| LanguageList.Grow | luaespeak.c:352 | `realloc`: a fresh buffer of the new size that keeps the bytes written so far. |
| LanguageList.CopyName | luaespeak.c:358 | `strcpy`: the name and its NUL follow the unchanged prefix. |
| LanguageList.GrownSize | luaespeak.c:350-352 | The size after the growth step leaves room for the name, its NUL and the next byte. It never shrinks and is unchanged when the name already fits. |
| LanguageList.ReadStep | luaespeak.c:303-362 | The table still to read loses the consumed index, and the pairs read so far gain one. |
| LanguageList.ReadStops | luaespeak.c:313-342 | A bad pair ends the whole read with that pair's error. |
| LanguageList.ReadEnds | luaespeak.c:307-311 | A nil at the current index ends the read with the pairs read so far. |
| LanguageList.LanguageListRoundTrip | luaespeak.c:262-367 | A list with non-zero priorities, written with get_language_list and expanded with push_language_list (documented orientation), gives back the same table. |
| LanguageList.ParseAsWrittenDropsPair | luaespeak.c:280 | The scan as written, on the buffer 5 0 3 'a' 0 0, returns only the first of the two pairs the buffer holds. |
| LanguageList.ParseAsWrittenAgrees | luaespeak.c:262-286 | When no name is empty, the scan as written reads what the corrected model reads. |
| LanguageList.WrongTypeAsWrittenNeverFires | luaespeak.c:313-340 | The checks `!lua_type(L, -1) == LUA_T...` never reject a value, while the intended `lua_type(L, -1) != LUA_T...` rejects exactly the values of another type. |
| LanguageList.GrowAsWritten | luaespeak.c:350-352 | The growth rule as written only makes room for the name's bytes, not its NUL. |
| LanguageList.GrowAsWrittenOverflows | luaespeak.c:350-359 | When `bufsz` is `pos + strlen(name)` or one more, the code does not grow the buffer, and a byte is then written at index `bufsz`. The corrected size has room. |
| LanguageList.GrowAsWrittenFirstPair | luaespeak.c:295-359 | Input that shows the overflow: a first pair whose name is 15 bytes, at pos 1 of the initial 16-byte buffer. |
| LanguageList.CStrPrefix | luaespeak.c:277 | `lua_pushstring` of a name position whose NUL is at n gives the n bytes before it. |
| Values.CStr | luaespeak.c:432-468 | The C-string view of a Lua string is its prefix up to the first NUL, and is the whole string when it has none. |
| Values.SignedChar | luaespeak.c:272 | `(int) langlist[pos]` through a signed `char` lies in -128..127 and agrees with the byte modulo 256. |
| Values.ToByte | luaespeak.c:332 | `(char) lua_tonumber(...)` keeps the low eight bits. |
| Values.ToByteSignedChar | luaespeak.c:272-332 | A byte read as a signed `char` and cast back is the same byte. |
| Values.SignedCharToByte | luaespeak.c:272-332 | A Lua priority survives the cast to `char` and the signed read exactly when it lies in -128..127. This goes both ways. |
| Lua.Get | luaespeak.c:432-442 | `lua_getfield`: an absent key reads as nil, and a present one reads its value. |
| Events.ReadEvent | luaespeak.c:97-206 | get_event's field-by-field read, stopping at the first bad field. Its properties are carried by ReadEventIff, ReadEventCongruent and GetEventFirstError. |
| Events.GetEvent | luaespeak.c:87-209 | get_event with its allocation bookkeeping. Its properties are carried by GetEventAccepts, GetEventValues, GetEventDefaults, GetEventFirstError, GetEventIdError, GetEventIgnoresId and GetEventHeap. |
| Events.PushEvent | luaespeak.c:54-84 | push_event's table. Its properties are carried by PushEventFields and EventRoundTrip. |
| Events.ReadNumberOk | luaespeak.c:106-181 | A scalar field is accepted exactly when it is absent or a number. Otherwise the error is that field's own message, including the source's spelling "Bad event 'lenght'". |
| Events.ReadEventIff | luaespeak.c:97-209 | get_event's reading yields the event `e` exactly when every scalar field reads as `e`'s value, the `id` reads as `e.id` for `e`'s type, and there is no user data. |
| Events.ReadEventCongruent | luaespeak.c:184-206 | Two tables that agree on every field get_event reads decode alike. |
| Events.GetEventAccepts | luaespeak.c:87-209 | get_event succeeds exactly on tables whose scalars are numbers or absent and whose `id` suits the type. |
| Events.GetEventFirstError | luaespeak.c:106-181 | The first scalar of a wrong type, in the source's read order, decides the error. The record is freed. |
| Events.GetEventIdError | luaespeak.c:184-206 | With good scalars, a wrong-typed `id` (not a number for WORD/SENTENCE, not a string for MARK/PLAY) fails with "Bad event 'id'", and the record is freed. |
| Events.GetEventValues | luaespeak.c:97-206 | On success, each scalar is the table's number or its default. The type decides the `id` view. A string `id` is cut at its first NUL. An absent `id` leaves the union holding the number 0. |
| Events.GetEventDefaults | luaespeak.c:97-104 | An empty table decodes to type LIST_TERMINATED, all numbers 0, no user data and `id.number` 0. |
| Events.GetEventIgnoresId | luaespeak.c:184-206 | For types other than WORD, SENTENCE, MARK and PLAY, the `id` entry has no effect at all, whatever its value. |
| Events.GetEventHeap | luaespeak.c:87-209 | A non-table is rejected before anything is allocated. A failure frees the record. A success hands over the record and, for a name `id`, its string copy. |
| Events.PushEventFields | luaespeak.c:54-84 | push_event always emits the six scalar fields. It emits `id` as a number for WORD/SENTENCE and as a string (`""` for a NULL name) for MARK/PLAY, and does not emit it otherwise. It emits no other key. |
| Events.EventRoundTrip | luaespeak.c:54-209 | get_event(push_event(e)) is `e` with user data dropped, a NULL name turned into "", and the `id` of an id-less type reset to 0. Only the record and a name copy are allocated. |
| Events.EventRoundTripExact | luaespeak.c:54-209 | For WORD/SENTENCE/MARK/PLAY events with a non-NULL name and no user data, get_event(push_event(e)) is `e`. |
| Events.TableRoundTrip | luaespeak.c:54-209 | Pushing a decoded event gives back every number the table held. |
| Voices.GetVoice | luaespeak.c:415-510 | get_voice with its allocation bookkeeping. Its properties are carried by GetVoiceAccepts, GetVoiceValues, GetVoiceDefaults, GetVoiceFirstError, GetVoiceHeap and GetVoiceRejects. |
| Voices.FreeVoice | luaespeak.c:513-521 | The blocks free_voice releases: the record and each non-NULL string. Its properties are carried by GetVoiceHeap, FillStringsHeap and FillNumbersHeap. |
| Voices.PushVoice | luaespeak.c:374-408 | push_voice as written: the list under "name" in the orientation of lines 282-283, expanded with the corrected scan of line 280 (the two scans agree on buffers without empty names, ParseAsWrittenAgrees). Its properties are carried by PushVoiceFields, PushVoiceLosesName, PushVoiceListUnreadable and VoiceRoundTrip. |
| Voices.PushVoiceCorrected | luaespeak.c:374-408 | push_voice with the list under "languages" in the documented orientation. Its properties are carried by PushVoiceCorrectedFields, PushVoiceCorrectedList and PushVoiceAgrees. |
| Voices.ReadStringOk | luaespeak.c:432-468 | A string field is accepted exactly when it is absent or a string. It is kept cut at its first NUL, and a wrong type gives that field's message. |
| Voices.ReadIntOk | luaespeak.c:471-507 | A numeric field is accepted exactly when it is absent or a number, and a wrong type gives that field's message. |
| Voices.GetStringsOk | luaespeak.c:425-468 | The string half succeeds exactly on well-typed name, identifier and languages, and holds their C strings. |
| Voices.GetNumbersOk | luaespeak.c:471-507 | The numeric half succeeds exactly on well-typed gender, age and variant. It sets only those, and releases the record on failure. |
| Voices.FillStringsHeap | luaespeak.c:432-521 | Reading the strings: on failure, free_voice releases exactly the blocks acquired so far. On success, the acquired blocks are what free_voice of the record would release. |
| Voices.FillNumbersHeap | luaespeak.c:471-521 | Reading the numbers allocates nothing. A failure releases the record as it stands, and the numbers do not change what free_voice releases. |
| Voices.GetVoiceAccepts | luaespeak.c:415-510 | get_voice succeeds exactly when name, identifier and languages are strings or absent, and gender, age and variant are numbers or absent. |
| Voices.GetVoiceValues | luaespeak.c:425-507 | On success, each string field is the table's string cut at its first NUL, or NULL. `languages` is such a plain string, not a priority list. Each number is the table's, or 0. |
| Voices.GetVoiceFirstError | luaespeak.c:432-507 | The first bad field in the order name, identifier, languages, gender, age, variant decides the error message. |
| Voices.GetVoiceDefaults | luaespeak.c:425-430 | An empty table decodes to a voice with NULL strings and zero numbers. |
| Voices.GetVoiceHeap | luaespeak.c:415-521 | No leak: a failed get_voice releases every block it acquired, the record and all strings duplicated so far. A successful one acquired exactly the blocks free_voice releases for its result. |
| Voices.GetVoiceRejects | luaespeak.c:418 | The not-a-table error arises exactly for a non-table argument. Every other failure names a field. |
| Voices.PushVoiceFields | luaespeak.c:374-408 | push_voice always emits gender, age and variant, and emits identifier only when non-NULL. The "name" key holds the expanded language list when there is one, as push_language_list builds it (pairs as keys), and otherwise the name when non-NULL. No "languages" key is emitted, and no other key. |
| Voices.PushVoiceLosesName | luaespeak.c:384-390 | With a language list, the name is overwritten, and get_voice rejects the pushed table with "Bad voice name.". |
| Voices.PushVoiceCorrectedFields | luaespeak.c:374-408 | With the list under "languages" in the documented orientation, every field of the record appears under its own key, and the name survives. |
| Voices.PushVoiceListUnreadable | luaespeak.c:384-390 | As written, the list table under "name" reads back through get_language_list as the empty list. |
| Voices.PushVoiceCorrectedList | luaespeak.c:384-390 | With the corrected push, get_language_list reads the "languages" entry back as the voice's list and encodes it to the bytes the voice's buffer starts with. |
| Voices.PushVoiceAgrees | luaespeak.c:374-408 | Without a language list, push_voice as written and corrected produce the same table. |
| Voices.VoiceRoundTrip | luaespeak.c:374-510 | Without a language list, get_voice(push_voice(v)) is `v`. |

## Left out

- The Lua C API stack (`lua_push*`, `lua_gettable`, `lua_pop`, stack indices) is replaced by tables as maps and calls as functions.
  - `get_language_list` never pops the priority after luaespeak.c:322/332, so the `lua_gettable(L, -2)` at line 337 indexes the priority value instead of the pair. For any list whose first entry is an ordinary pair `{number, string}`, that lookup raises "attempt to index a number value", and `str` leaks. For tables without metatables, get_language_list as written therefore succeeds only on a table with nothing under index 1. Any other input raises, or passes NULL to `strlen`, before line 365. The input of Findings row 3 overflows at line 358, and then raises in its second iteration: that iteration reads the copied name out of the unpopped inner table, and the lookup at line 337 indexes nil. The model reads each pair from the list table as the code evidently intends.
- `luaL_error` is modelled as an `Err` result; its non-local exit is not modelled.
  - When `realloc` fails, `get_language_list` overwrites `str` with NULL and so loses the old buffer. This failure path is not modelled.
- `malloc`, `realloc` and `strdup` failing ("Memory allocation failure") is not modelled: allocation always succeeds.
- `lua_tonumber` returns doubles in Lua 5.1; here Lua numbers are integers.
  - The C field widths of `espeak_EVENT` and `espeak_VOICE` (speak_lib.h is not part of this model) are not modelled either: event and voice numbers are unbounded integers.
  - Only the `(char)` cast of a priority is written out (`ToByte`).
- `constants()` and `luaopen_espeak` only register enum values of speak_lib.h, which is not part of this model. The event-kind constants are distinct named values, with LIST_TERMINATED as the default.
- Callbacks, engine lifecycle, command wrappers and the engine itself are not in the file and not modelled.
- `free_event` is commented out in the source and not modelled. `GetEvent`'s heap bookkeeping records the name copy handed to the caller.
- `user_data` is a pointer; it is modelled as `Option<nat>`. get_event always sets it to NULL.
- Events.PushEvent requires the union to hold the view its type selects (`WellFormedEvent`): reading the other view is undefined behaviour. A MARK/PLAY event decoded without an `id` holds the number 0 in its union, so it cannot be pushed again in this model.
- Voices.PushVoice requires a non-NULL `languages` to hold a well-formed packed list (`Pushable`): the code walks the buffer to its terminator. This works like LanguageList.PushLanguageList's precondition. The list is expanded with the corrected scan of line 280, not the `++pos` scan; the two agree when no name is empty (LanguageList.ParseAsWrittenAgrees).
- Voices.VoiceRoundTrip holds only without a language list. Listing mode (a packed list) and filter mode (a plain string) are different representations of `languages`, and even corrected, get_voice rejects a table under that key.
- LanguageList.PushLanguageList: models the corrected scan of line 280 and builds the documented table `{ [i] = pair }`, not the table `{ [pair] = i }` that lines 282-283 store. The code as written is modelled beside it by ParseAsWritten and ListTableAsWritten (see Findings).
- LanguageList.GetLanguageList: models the corrected type checks, growth rule and stack reads; the code as written is modelled beside it (see Findings).
- LanguageList.SkipName: is the corrected scan (test, then advance), not the `++pos` scan of line 280.
- LanguageList.StorePair: performs the corrected type checks of lines 313, 325 and 340, which as written never fire.
- LanguageList.ReadStops: a bad pair stops the read only under the corrected checks.
- LanguageList.AppendName: grows by the corrected rule GrownSize, not by line 350's `bufsz < pos + strlen(name)`.
- LanguageList.GrownSize: is the corrected growth rule; lines 350-352 as written leave no room for the NUL and the next byte (GrowAsWritten).
- LanguageList.ListTableAt: describes the documented table; the table as written is described by ListTableAsWrittenAt.
- LanguageList.ReadListTable: holds of the documented table; the table lines 282-283 build reads back as the empty list (ListTableAsWrittenReadsEmpty).
- LanguageList.TableRoundTrip: starts from the documented table, not the one lines 282-283 build.
- LanguageList.LanguageListRoundTrip: returns the documented table, not the pair-keyed table lines 282-283 build.
- Voices.PushVoiceFields: the list under "name" is expanded with the corrected scan of line 280, in the as-written orientation of lines 282-283.

## Findings

| source | as written | input that shows it | evidently intended | confidence | as-written member | corrected member |
|---|---|---|---|---|---|---|
| luaespeak.c:280 | `while (langlist[++pos]);` increments before testing, so for an empty name it skips the name's NUL and runs into the next run | buffer 5 0 3 'a' 0 0 (pairs (5,"") and (3,"a")) yields only the first pair | scan from the first name byte, `while (langlist[pos]) pos++;` | high, not executed | LanguageList.ParseAsWrittenDropsPair | LanguageList.DecodeEncode |
| luaespeak.c:313-342 | `!lua_type(L, -1) == LUA_TTABLE` parses as `(!lua_type(...)) == LUA_TTABLE`, which is never true for the codes 5, 3, 4 | any pair `{ "x", {} }` or a non-table entry passes the check | `lua_type(L, -1) != LUA_TTABLE` (and NUMBER, STRING) | high, not executed | LanguageList.WrongTypeAsWrittenNeverFires | LanguageList.GetLanguageList |
| luaespeak.c:350-352 | grows only when `bufsz < pos + strlen(name)`; `strcpy` needs `pos + strlen(name) + 1` bytes and the next write one more | as written the stack handling raises on an ordinary pair before line 350 (see Left out); the list `{ { { [2] = "abcdefghijklmno" } } }` reaches it: its [1] is a table, so the priority byte is `(char) 0`, [2] of that table is the 15-byte name, pos is 1, 16 < 16 is false, and `strcpy` writes the NUL at index 16 of the 16-byte buffer | grow when `bufsz < pos + strlen(name) + 2` | high, not executed | LanguageList.GrowAsWrittenFirstPair | LanguageList.GetLanguageList |
| luaespeak.c:387 | the language list is stored under the key "name", overwriting the voice name | any listed voice with a name and a language list: the pushed table has no name, and get_voice rejects it | store the list under "languages" | medium, not executed | Voices.PushVoiceLosesName | Voices.PushVoiceCorrectedFields |
| luaespeak.c:282-283 | the index `i` is pushed after the pair table, so `lua_settable(L, -3)` stores the pair as the key and `i` as its value | buffer 1 'e' 'n' 0 0 gives `{ [{[1]=1, [2]="en"}] = 1 }`, which has nothing under index 1, so get_language_list reads it back as the empty list | push `i` before the `lua_newtable` at line 269, giving `{ [1] = {1, "en"} }` | high, not executed | LanguageList.ListTableAsWrittenReadsEmpty | LanguageList.ReadListTable |
