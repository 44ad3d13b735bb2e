/** The content-addressed objects behind large context values: no reference ever dangles. */
module Objects {
  import opened Common
  import J = JsonText

  type Json = J.Json

  // JSON and SHA-256, as far as they matter: what is marshalled reads back, and no two
  // contents share a hash.
  datatype Codec = Codec(marshal: Json -> string, unmarshal: string -> Option<Json>, hash: string -> string)

  ghost predicate Sound(c: Codec) {
    && (forall v {:trigger c.marshal(v)} :: c.unmarshal(c.marshal(v)) == Some(v))
    && forall a, b {:trigger c.hash(a), c.hash(b)} :: c.hash(a) == c.hash(b) ==> a == b
  }

  // There are such codecs.
  lemma SomeCodec() returns (c: Codec)
    ensures Sound(c)
  {
    c := Codec(J.Marshal, J.Unmarshal, s => s);
    forall v ensures c.unmarshal(c.marshal(v)) == Some(v) { J.ReadsBack(v); }
  }

  const THRESHOLD: nat := 2 * 1024

  // Where a context keeps values.
  datatype Slot = Input | Output | TaskOutput(id: string)

  // In memory: a value, or the marker of one that has not been loaded.
  datatype Held = Plain(v: Json) | Marker(hash: string)

  // In a column.
  datatype Envelope = Inline(v: Json) | RefTo(hash: string)

  type Context = map<Slot, Held>

  type Columns = map<Slot, Envelope>

  datatype ObjectRow = ObjectRow(content: string, pinned: bool, logUntil: Option<int>)

  type ObjectTable = map<string, ObjectRow>

  // --- encoding ---

  predicate Large(c: Codec, v: Json) {
    |c.marshal(v)| > THRESHOLD
  }

  function Encode(c: Codec, h: Held): Envelope {
    match h
    case Marker(hash) => RefTo(hash)
    case Plain(v) => if Large(c, v) then RefTo(c.hash(c.marshal(v))) else Inline(v)
  }

  function Decode(e: Envelope): Held {
    match e
    case Inline(v) => Plain(v)
    case RefTo(hash) => Marker(hash)
  }

  function EncodeAll(c: Codec, ctx: Context): Columns {
    map s | s in ctx :: Encode(c, ctx[s])
  }

  function DecodeAll(cols: Columns): Context {
    map s | s in cols :: Decode(cols[s])
  }

  ghost predicate Refers(cols: Columns, hash: string) {
    exists s :: s in cols && cols[s] == RefTo(hash)
  }

  // A new object this context wants written under that hash.
  ghost predicate Wants(c: Codec, ctx: Context, hash: string, content: string) {
    exists s :: s in ctx && ctx[s].Plain? && Large(c, ctx[s].v) && content == c.marshal(ctx[s].v) && hash == c.hash(content)
  }

  // --- the statements ---

  function Pinned(t: ObjectTable, hash: string, content: string): ObjectTable {
    t[hash := if hash in t then t[hash].(pinned := true) else ObjectRow(content, true, None)]
  }

  predicate NoLogNeeds(r: ObjectRow, now: int) {
    r.logUntil.None? || r.logUntil.value < now
  }

  // DeleteDereferencedObject, then UnpinObject on what is left.
  function Dereferenced(t: ObjectTable, hash: string, now: int): ObjectTable {
    if hash !in t then t
    else if NoLogNeeds(t[hash], now) then t - {hash}
    else t[hash := t[hash].(pinned := false)]
  }

  function LogReferenced(t: ObjectTable, hash: string, content: string, until: int): ObjectTable {
    t[hash := if hash in t then t[hash].(logUntil := Some(until)) else ObjectRow(content, false, Some(until))]
  }

  function Swept(t: ObjectTable, before: int): ObjectTable {
    map h | h in t && !(!t[h].pinned && NoLogNeeds(t[h], before)) :: t[h]
  }

  // --- one instance over time ---

  datatype Copy = Copy(ctx: Context, loaded: set<string>)

  // logged: contents handed to the log; meaning: the value each slot was last given.
  datatype State = State(columns: Columns, objects: ObjectTable, copy: Option<Copy>, now: int, logged: set<string>, meaning: map<Slot, Json>)

  ghost function RefsOf(cols: Columns): set<string> {
    set s | s in cols && cols[s].RefTo? :: cols[s].hash
  }

  // What the object diff of one write does to the row of one hash: a new object is pinned;
  // a reference given up is deleted or, for a log's sake, unpinned; any other row stays.
  ghost predicate RowDiff(c: Codec, t: ObjectTable, ctx: Context, loaded: set<string>, now: int, t': ObjectTable, h: string) {
    if exists content :: Wants(c, ctx, h, content) then
      && h in t' && t'[h].pinned
      && if h in t then t'[h] == t[h].(pinned := true) else Wants(c, ctx, h, t'[h].content) && t'[h].logUntil.None?
    else if h in loaded && !Refers(EncodeAll(c, ctx), h) then
      (h in t' <==> h in t && !NoLogNeeds(t[h], now)) && (h in t' ==> t'[h] == t[h].(pinned := false))
    else (h in t' <==> h in t) && (h in t ==> t'[h] == t[h])
  }

  ghost predicate Diffed(c: Codec, t: ObjectTable, ctx: Context, loaded: set<string>, now: int, t': ObjectTable) {
    forall h {:trigger RowDiff(c, t, ctx, loaded, now, t', h)} :: RowDiff(c, t, ctx, loaded, now, t', h)
  }

  // An update never rewrites the input column.
  function Written(row: Columns, cols: Columns): Columns {
    if Input in row then cols[Input := row[Input]] else cols
  }

  function Meant(ctx: Context, before: map<Slot, Json>): map<Slot, Json> {
    map s | s in ctx :: if ctx[s].Plain? then ctx[s].v else if s in before then before[s] else J.Null
  }

  datatype Event =
    | EvClaim
    | EvAssign(slot: Slot, v: Json)   // the engine stores a task output or the process output
    | EvPersist
    | EvCrash
    | EvLog(content: string, until: int)
    | EvSweep
    | EvTick(now: int)

  ghost predicate Persist(c: Codec, s: State, s': State) {
    && s.copy.Some?
    && Diffed(c, s.objects, s.copy.value.ctx, s.copy.value.loaded, s.now, s'.objects)
    && s'.columns == Written(s.columns, EncodeAll(c, s.copy.value.ctx))
    && s'.copy.None? && s'.now == s.now && s'.logged == s.logged
    && s'.meaning == Meant(s.copy.value.ctx, s.meaning)
  }

  ghost predicate Step(c: Codec, s: State, e: Event, s': State) {
    match e
    case EvClaim =>
      s.copy.None? && s.columns != map[] && s' == s.(copy := Some(Copy(DecodeAll(s.columns), RefsOf(s.columns))))
    case EvAssign(slot, v) =>
      && s.copy.Some? && slot != Input
      && s' == s.(copy := Some(s.copy.value.(ctx := s.copy.value.ctx[slot := Plain(v)])))
    case EvPersist => Persist(c, s, s')
    case EvCrash => s.columns != map[] && s' == s.(copy := None)
    case EvLog(content, until) =>
      s' == s.(objects := LogReferenced(s.objects, c.hash(content), content, until), logged := s.logged + {content})
    case EvSweep => s' == s.(objects := Swept(s.objects, s.now))
    case EvTick(now) => s.now <= now && s' == s.(now := now)
  }

  // A new instance: its context is about to be inserted, with no object yet.
  ghost predicate Initial(s: State) {
    && s.columns == map[] && s.objects == map[] && s.logged == {} && s.meaning == map[]
    && s.copy.Some? && s.copy.value.loaded == {}
    && forall slot :: slot in s.copy.value.ctx ==> s.copy.value.ctx[slot].Plain?
  }

  ghost predicate Run(c: Codec, states: seq<State>, events: seq<Event>) {
    && |states| == |events| + 1 && Initial(states[0])
    && forall i :: 0 <= i < |events| ==> Step(c, states[i], events[i], states[i + 1])
  }

  // --- the invariant ---

  // What a slot resolves to.
  function Resolve(c: Codec, t: ObjectTable, e: Envelope): Option<Json> {
    match e
    case Inline(v) => Some(v)
    case RefTo(h) => if h in t then c.unmarshal(t[h].content) else None
  }

  ghost predicate SlotHolds(c: Codec, s: State, slot: Slot)
    requires slot in s.columns
  {
    && slot in s.meaning && Resolve(c, s.objects, s.columns[slot]) == Some(s.meaning[slot])
    && (s.columns[slot].RefTo? <==> |c.marshal(s.meaning[slot])| > 2 * 1024)
  }

  // A row is keyed by its content's hash, pinned exactly while a column refers to it, and
  // served to the log only if the log was given that very content.
  ghost predicate ObjectHolds(c: Codec, s: State, h: string) {
    && (h in s.objects ==> c.hash(s.objects[h].content) == h)
    && ((h in s.objects && s.objects[h].pinned) <==> Refers(s.columns, h))
    && (h in s.objects && s.objects[h].logUntil.Some? ==> s.objects[h].content in s.logged)
  }

  // Markers stand for the slot's own column, and the input is as read.
  ghost predicate CopyHolds(c: Codec, s: State) {
    s.copy.Some? ==>
      var ctx := s.copy.value.ctx;
      && s.copy.value.loaded == RefsOf(s.columns)
      && (forall slot :: slot in s.columns ==> slot in ctx)
      && (forall slot :: slot in ctx && ctx[slot].Marker? ==> slot in s.columns && s.columns[slot] == RefTo(ctx[slot].hash))
      && (Input in s.columns ==> ctx[Input] == Decode(s.columns[Input]))
  }

  ghost predicate Inv(c: Codec, s: State) {
    && (forall slot {:trigger SlotHolds(c, s, slot)} :: slot in s.columns ==> SlotHolds(c, s, slot))
    && (forall h {:trigger ObjectHolds(c, s, h)} :: ObjectHolds(c, s, h))
    && CopyHolds(c, s)
  }

  // --- a persist keeps it ---

  // Writing the context back: the input's column would come out as it is anyway.
  lemma WrittenIsEncoded(c: Codec, s: State)
    requires Inv(c, s) && s.copy.Some?
    ensures Written(s.columns, EncodeAll(c, s.copy.value.ctx)) == EncodeAll(c, s.copy.value.ctx)
  {
    if Input in s.columns { assert SlotHolds(c, s, Input); }
  }

  lemma EncodedHash(c: Codec, ctx: Context, slot: Slot)
    requires slot in ctx && Encode(c, ctx[slot]).RefTo?
    ensures ctx[slot].Plain? ==> Wants(c, ctx, Encode(c, ctx[slot]).hash, c.marshal(ctx[slot].v))
  {
  }

  lemma WantedIsReferred(c: Codec, ctx: Context, h: string, content: string)
    requires Wants(c, ctx, h, content)
    ensures Refers(EncodeAll(c, ctx), h)
  {
    var slot :| slot in ctx && ctx[slot].Plain? && Large(c, ctx[slot].v) && content == c.marshal(ctx[slot].v) && h == c.hash(content);
    assert EncodeAll(c, ctx)[slot] == RefTo(h);
  }

  lemma PersistObject(c: Codec, s: State, s': State, h: string)
    requires Sound(c) && Inv(c, s) && Persist(c, s, s')
    ensures ObjectHolds(c, s', h)
  {
    hide Encode, Large, Sound;
    var ctx := s.copy.value.ctx;
    WrittenIsEncoded(c, s);
    assert ObjectHolds(c, s, h);
    assert RowDiff(c, s.objects, ctx, s.copy.value.loaded, s.now, s'.objects, h);
    if content :| Wants(c, ctx, h, content) {
      WantedIsReferred(c, ctx, h, content);
    } else if Refers(s'.columns, h) {
      var slot :| slot in s'.columns && s'.columns[slot] == RefTo(h);
      EncodedHash(c, ctx, slot);
      assert ctx[slot].Marker?;
      MarkerRefers(c, s, slot);
    } else if Refers(s.columns, h) {
      assert h in RefsOf(s.columns);
    }
  }

  lemma MarkerRefers(c: Codec, s: State, slot: Slot)
    requires CopyHolds(c, s) && s.copy.Some? && slot in s.copy.value.ctx && s.copy.value.ctx[slot].Marker?
    ensures Encode(c, s.copy.value.ctx[slot]) == RefTo(s.copy.value.ctx[slot].hash) == s.columns[slot]
    ensures Refers(s.columns, s.copy.value.ctx[slot].hash)
  {
  }

  lemma PersistSlot(c: Codec, s: State, s': State, slot: Slot)
    requires Sound(c) && Inv(c, s) && Persist(c, s, s') && slot in s'.columns
    ensures SlotHolds(c, s', slot)
  {
    hide Sound;
    var ctx := s.copy.value.ctx;
    WrittenIsEncoded(c, s);
    match ctx[slot]
    case Plain(v) =>
      if Large(c, v) {
        var content := c.marshal(v);
        var h := c.hash(content);
        assert Wants(c, ctx, h, content);
        assert RowDiff(c, s.objects, ctx, s.copy.value.loaded, s.now, s'.objects, h);
        assert ObjectHolds(c, s, h);
        SameContent(c, ctx, content, s'.objects[h].content);
      }
    case Marker(h) =>
      MarkerRefers(c, s, slot);
      assert SlotHolds(c, s, slot) && ObjectHolds(c, s, h);
      assert RowDiff(c, s.objects, ctx, s.copy.value.loaded, s.now, s'.objects, h);
      assert Refers(EncodeAll(c, ctx), h);
  }

  lemma SameContent(c: Codec, ctx: Context, a: string, b: string)
    requires Sound(c) && c.hash(a) == c.hash(b)
    ensures a == b
    ensures forall v :: c.marshal(v) == a ==> c.unmarshal(b) == Some(v)
  {
  }

  lemma PersistKeeps(c: Codec, s: State, s': State)
    requires Sound(c) && Inv(c, s) && Persist(c, s, s')
    ensures Inv(c, s')
  {
    hide Sound, ObjectHolds, SlotHolds;
    forall h ensures ObjectHolds(c, s', h) { PersistObject(c, s, s', h); }
    forall slot | slot in s'.columns ensures SlotHolds(c, s', slot) { PersistSlot(c, s, s', slot); }
  }

  lemma LogKeeps(c: Codec, s: State, content: string, until: int, s': State)
    requires Sound(c) && Inv(c, s) && Step(c, s, EvLog(content, until), s')
    ensures Inv(c, s')
  {
    forall h ensures ObjectHolds(c, s', h) {
      assert ObjectHolds(c, s, h);
    }
    forall slot | slot in s'.columns ensures SlotHolds(c, s', slot) {
      assert SlotHolds(c, s, slot);
    }
  }

  lemma SweepKeeps(c: Codec, s: State, s': State)
    requires Inv(c, s) && Step(c, s, EvSweep, s')
    ensures Inv(c, s')
  {
    forall h ensures ObjectHolds(c, s', h) {
      assert ObjectHolds(c, s, h);
    }
    forall slot | slot in s'.columns ensures SlotHolds(c, s', slot) {
      assert SlotHolds(c, s, slot);
      if s.columns[slot].RefTo? {
        assert ObjectHolds(c, s, s.columns[slot].hash) && Refers(s.columns, s.columns[slot].hash);
      }
    }
  }

  // Steps that leave the columns and the objects alone.
  lemma QuietKeeps(c: Codec, s: State, s': State)
    requires Inv(c, s) && CopyHolds(c, s')
    requires s'.columns == s.columns && s'.objects == s.objects && s'.logged == s.logged && s'.meaning == s.meaning
    ensures Inv(c, s')
  {
    forall h ensures ObjectHolds(c, s', h) { assert ObjectHolds(c, s, h); }
    forall slot | slot in s'.columns ensures SlotHolds(c, s', slot) { assert SlotHolds(c, s, slot); }
  }

  lemma StepKeeps(c: Codec, s: State, e: Event, s': State)
    requires Sound(c) && Inv(c, s) && Step(c, s, e, s')
    ensures Inv(c, s')
  {
    hide Sound, ObjectHolds, SlotHolds, Persist;
    match e
    case EvPersist => PersistKeeps(c, s, s');
    case EvLog(content, until) => LogKeeps(c, s, content, until, s');
    case EvSweep => SweepKeeps(c, s, s');
    case _ => QuietKeeps(c, s, s');
  }

  lemma InitialHolds(c: Codec, s: State)
    requires Initial(s)
    ensures Inv(c, s)
  {
    forall h ensures ObjectHolds(c, s, h) { }
  }

  lemma {:induction false} RunHolds(c: Codec, states: seq<State>, events: seq<Event>, i: nat)
    requires Sound(c) && Run(c, states, events) && i < |states|
    ensures Inv(c, states[i])
  {
    hide Sound, Inv, Step, Initial;
    if i == 0 {
      InitialHolds(c, states[0]);
    } else {
      RunHolds(c, states, events, i - 1);
      StepKeeps(c, states[i - 1], events[i - 1], states[i]);
    }
  }

  // No dangling reference: on every run each slot resolves, to the value it was last given,
  // through any diffs, shared contents, log references and sweeps; and only a value over the
  // threshold is kept apart.
  lemma SlotsResolve(c: Codec, states: seq<State>, events: seq<Event>, i: nat, slot: Slot)
    requires Sound(c) && Run(c, states, events) && i < |states| && slot in states[i].columns
    ensures slot in states[i].meaning && Resolve(c, states[i].objects, states[i].columns[slot]) == Some(states[i].meaning[slot])
    ensures states[i].columns[slot].RefTo? <==> |c.marshal(states[i].meaning[slot])| > 2 * 1024
  {
    RunHolds(c, states, events, i);
    assert SlotHolds(c, states[i], slot);
  }

  // Pins neither leak nor lapse, and the log endpoint serves only what was logged.
  lemma PinnedIffReferred(c: Codec, states: seq<State>, events: seq<Event>, i: nat, h: string)
    requires Sound(c) && Run(c, states, events) && i < |states|
    ensures var s := states[i];
            && ((h in s.objects && s.objects[h].pinned) <==> Refers(s.columns, h))
            && (h in s.objects && s.objects[h].logUntil.Some? ==> s.objects[h].content in s.logged)
  {
    RunHolds(c, states, events, i);
    assert ObjectHolds(c, states[i], h);
  }

  // A value that is replaced, and that no log needs, is gone with the write that replaces it.
  lemma ReplacedIsDeleted(c: Codec, s: State, s': State, h: string)
    requires Sound(c) && Inv(c, s) && Persist(c, s, s') && Refers(s.columns, h) && !Refers(s'.columns, h)
    requires h in s.objects && NoLogNeeds(s.objects[h], s.now)
    ensures h !in s'.objects
  {
    var ctx := s.copy.value.ctx;
    WrittenIsEncoded(c, s);
    assert RowDiff(c, s.objects, ctx, s.copy.value.loaded, s.now, s'.objects, h);
    assert h in RefsOf(s.columns);
    if content :| Wants(c, ctx, h, content) { WantedIsReferred(c, ctx, h, content); }
  }

  // After a sweep every row left is referred to by a column or needed by a log.
  lemma SweepIsComplete(c: Codec, s: State, s': State, h: string)
    requires Inv(c, s) && Step(c, s, EvSweep, s') && h in s'.objects
    ensures Refers(s'.columns, h) || !NoLogNeeds(s'.objects[h], s'.now)
  {
    assert ObjectHolds(c, s, h);
  }

  // --- what the log needs ---

  // How long the log was last promised that content, among the first n events.
  ghost function PromisedUntil(events: seq<Event>, n: nat, content: string): Option<int>
    requires n <= |events|
  {
    if n == 0 then None
    else if events[n - 1].EvLog? && events[n - 1].content == content then Some(events[n - 1].until)
    else PromisedUntil(events, n - 1, content)
  }

  ghost predicate KeptFor(c: Codec, s: State, content: string, until: int) {
    c.hash(content) in s.objects && s.objects[c.hash(content)] == ObjectRow(content, s.objects[c.hash(content)].pinned, Some(until))
  }

  lemma LoggedIsKept(c: Codec, s: State, content: string, until: int, s': State)
    requires Sound(c) && Inv(c, s) && Step(c, s, EvLog(content, until), s')
    ensures KeptFor(c, s', content, until)
  {
    assert ObjectHolds(c, s, c.hash(content));
  }

  // Until the promise lapses no step touches the object but a reference of the log's own.
  lemma StepKeepsLogged(c: Codec, s: State, e: Event, s': State, content: string, until: int)
    requires Sound(c) && Inv(c, s) && Step(c, s, e, s') && KeptFor(c, s, content, until) && s.now <= until
    requires !(e.EvLog? && e.content == content)
    ensures KeptFor(c, s', content, until)
  {
    hide Sound, Inv, Wants;
    var h := c.hash(content);
    if e.EvPersist? {
      assert RowDiff(c, s.objects, s.copy.value.ctx, s.copy.value.loaded, s.now, s'.objects, h);
    } else if e.EvLog? {
      assert c.hash(e.content) != h by { SoundApart(c, e.content, content); }
    }
  }

  lemma SoundApart(c: Codec, a: string, b: string)
    requires Sound(c) && a != b
    ensures c.hash(a) != c.hash(b)
  {
  }

  lemma ClockForward(c: Codec, s: State, e: Event, s': State)
    requires Step(c, s, e, s')
    ensures s.now <= s'.now
  {
  }

  // Log retention, on every run: as long as the last promise made for a content has not lapsed it is
  // there, under its hash and as it was logged, through any persists, crashes and sweeps.
  lemma {:induction false} LoggedSurvives(c: Codec, states: seq<State>, events: seq<Event>, n: nat, content: string, until: int)
    requires Sound(c) && Run(c, states, events) && n < |states|
    requires PromisedUntil(events, n, content) == Some(until) && states[n].now <= until
    ensures c.hash(content) in states[n].objects
    ensures states[n].objects[c.hash(content)].content == content && states[n].objects[c.hash(content)].logUntil == Some(until)
  {
    hide Sound, Inv, Step, Initial;
    var s, e, s' := states[n - 1], events[n - 1], states[n];
    RunHolds(c, states, events, n - 1);
    if e.EvLog? && e.content == content {
      LoggedIsKept(c, s, content, until, s');
    } else {
      ClockForward(c, s, e, s');
      LoggedSurvives(c, states, events, n - 1, content, until);
      StepKeepsLogged(c, s, e, s', content, until);
    }
  }

  // Promises grow with the clock while the retention window is not changed; then every one is kept,
  // not just the last.
  lemma {:induction false} EveryPromiseKept(c: Codec, states: seq<State>, events: seq<Event>, k: nat, n: nat)
    requires Sound(c) && Run(c, states, events) && k < n < |states| && events[k].EvLog? && states[n].now <= events[k].until
    requires forall i, j :: 0 <= i < j < |events| && events[i].EvLog? && events[j].EvLog? ==> events[i].until <= events[j].until
    ensures c.hash(events[k].content) in states[n].objects && states[n].objects[c.hash(events[k].content)].content == events[k].content
  {
    hide Sound, Step, Initial;
    LaterPromise(events, k, n);
    LoggedSurvives(c, states, events, n, events[k].content, PromisedUntil(events, n, events[k].content).value);
  }

  lemma {:induction false} LaterPromise(events: seq<Event>, k: nat, n: nat)
    requires k < n <= |events| && events[k].EvLog?
    requires forall i, j :: 0 <= i < j < |events| && events[i].EvLog? && events[j].EvLog? ==> events[i].until <= events[j].until
    ensures PromisedUntil(events, n, events[k].content).Some? && PromisedUntil(events, n, events[k].content).value >= events[k].until
  {
    if k < n - 1 && !(events[n - 1].EvLog? && events[n - 1].content == events[k].content) {
      LaterPromise(events, k, n - 1);
    }
  }

  // A later reference replaces the horizon, also by a nearer one: with a shorter retention window an
  // object can go before the log that first referred to it.
  lemma NearerPromiseCuts(c: Codec, content: string) returns (states: seq<State>, events: seq<Event>)
    requires Sound(c)
    ensures Run(c, states, events) && |events| == 4
    ensures events[0] == EvLog(content, 10) && states[4].now < 10 && c.hash(content) !in states[4].objects
  {
    var h := c.hash(content);
    var s0 := State(map[], map[], Some(Copy(map[], {})), 0, {}, map[]);
    var s1 := s0.(objects := map[h := ObjectRow(content, false, Some(10))], logged := {content});
    var s2 := s1.(objects := map[h := ObjectRow(content, false, Some(1))]);
    var s3 := s2.(now := 5);
    var s4 := s3.(objects := map[]);
    states, events := [s0, s1, s2, s3, s4], [EvLog(content, 10), EvLog(content, 1), EvTick(5), EvSweep];
    assert Step(c, s0, events[0], s1) by { assert {} + {content} == {content}; }
    assert Step(c, s1, events[1], s2) by { assert {content} + {content} == {content}; }
    assert Step(c, s2, events[2], s3);
    assert Step(c, s3, events[3], s4);
  }

  // --- the code ---

  datatype PendingObject = PendingObject(hash: string, content: string)

  class ObjectStore {
    const codec: Codec
    var columns: Columns
    var objects: ObjectTable

    constructor (c: Codec)
      ensures codec == c && columns == map[] && objects == map[]
    {
      codec, columns, objects := c, map[], map[];
    }

    // The column of one slot, and the object it wants written.
    method EncodeContextValue(h: Held) returns (env: Envelope, pending: Option<PendingObject>)
      ensures env == Encode(codec, h)
      ensures pending == if h.Plain? && Large(codec, h.v) then Some(PendingObject(env.hash, codec.marshal(h.v))) else None
    {
      if h.Marker? { return RefTo(h.hash), None; }
      var b := codec.marshal(h.v);
      if |b| <= THRESHOLD { return Inline(h.v), None; }
      var hash := codec.hash(b);
      return RefTo(hash), Some(PendingObject(hash, b));
    }

    method EncodeContext(ctx: Context) returns (cols: Columns, pending: seq<PendingObject>, referenced: set<string>)
      ensures cols == EncodeAll(codec, ctx)
      ensures forall h :: h in referenced <==> Refers(cols, h)
      ensures forall h, content :: PendingObject(h, content) in pending <==> Wants(codec, ctx, h, content)
    {
      cols, pending, referenced := map[], [], {};
      var todo := ctx.Keys;
      while todo != {}
        invariant todo <= ctx.Keys
        invariant cols.Keys == ctx.Keys - todo && forall s :: s in cols ==> cols[s] == Encode(codec, ctx[s])
        invariant forall h :: h in referenced <==> Refers(cols, h)
        invariant forall h, content :: PendingObject(h, content) in pending <==>
          exists s :: s in cols && ctx[s].Plain? && Large(codec, ctx[s].v) && content == codec.marshal(ctx[s].v) && h == codec.hash(content)
        decreases |todo|
      {
        var slot :| slot in todo;
        todo := todo - {slot};
        var env, p := EncodeContextValue(ctx[slot]);
        ghost var before := cols;
        cols := cols[slot := env];
        RefersMore(before, slot, env, cols);
        if p.Some? { pending := pending + [p.value]; }
        if env.RefTo? { referenced := referenced + {env.hash}; }
      }
      assert cols == EncodeAll(codec, ctx);
    }

    // Pins first, then lets go of what the context no longer refers to.
    method ApplyContextObjectDiff(ghost ctx: Context, pending: seq<PendingObject>, loaded: set<string>, referenced: set<string>, now: int)
      requires Sound(codec)
      requires forall h, content :: PendingObject(h, content) in pending <==> Wants(codec, ctx, h, content)
      requires forall h :: h in referenced <==> Refers(EncodeAll(codec, ctx), h)
      modifies this`objects
      ensures Diffed(codec, old(objects), ctx, loaded, now, objects)
    {
      hide PinnedSoFar, LetGoSoFar, RowDiff, Sound, Wants, Refers;
      ghost var t := objects;
      PinNone(t, pending);
      for i := 0 to |pending|
        invariant forall h {:trigger PinnedSoFar(t, objects, pending[..i], h)} :: PinnedSoFar(t, objects, pending[..i], h)
      {
        PinNext(t, objects, pending, i);
        objects := Pinned(objects, pending[i].hash, pending[i].content);
      }
      assert pending[..|pending|] == pending;
      ghost var pinned := objects;
      var todo := loaded;
      LetGoNone(pinned, loaded - todo, referenced, now);
      while todo != {}
        invariant todo <= loaded
        invariant forall h {:trigger LetGoSoFar(pinned, objects, loaded - todo, referenced, now, h)} ::
          LetGoSoFar(pinned, objects, loaded - todo, referenced, now, h)
        decreases |todo|
      {
        var x :| x in todo;
        LetGoNext(pinned, objects, loaded - todo, referenced, now, x);
        assert loaded - (todo - {x}) == loaded - todo + {x};
        todo := todo - {x};
        if x !in referenced {
          objects := Dereferenced(objects, x, now);
        }
      }
      assert loaded - {} == loaded;
      DiffOfRows(codec, t, pinned, ctx, pending, loaded, referenced, now, objects);
    }

    // persistContext and the UPDATE that follows it, in one transaction.
    method PersistContext(ctx: Context, loaded: set<string>, now: int)
      requires Sound(codec)
      modifies this
      ensures Diffed(codec, old(objects), ctx, loaded, now, objects)
      ensures columns == Written(old(columns), EncodeAll(codec, ctx))
    {
      var cols, pending, referenced := EncodeContext(ctx);
      ApplyContextObjectDiff(ctx, pending, loaded, referenced, now);
      columns := if Input in columns then cols[Input := columns[Input]] else cols;
    }

    // Every slot resolved in place; a marker without an object reads as absent.
    method HydrateContext(ctx: Context) returns (full: Context)
      ensures full.Keys == ctx.Keys
      ensures forall s :: s in ctx ==>
        full[s] == (match ctx[s]
                    case Plain(v) => Plain(v)
                    case Marker(h) => match Resolve(codec, objects, RefTo(h))
                                      case Some(v) => Plain(v)
                                      case None => Plain(J.Null))
    {
      full := ctx;
      var todo := ctx.Keys;
      while todo != {}
        invariant todo <= ctx.Keys && full.Keys == ctx.Keys
        invariant forall s :: s in todo ==> full[s] == ctx[s]
        invariant forall s :: s in ctx.Keys - todo ==>
          full[s] == (match ctx[s]
                      case Plain(v) => Plain(v)
                      case Marker(h) => match Resolve(codec, objects, RefTo(h))
                                        case Some(v) => Plain(v)
                                        case None => Plain(J.Null))
        decreases |todo|
      {
        var slot :| slot in todo;
        todo := todo - {slot};
        if full[slot].Marker? {
          var v := Resolve(codec, objects, RefTo(full[slot].hash));
          full := full[slot := Plain(if v.Some? then v.value else J.Null)];
        }
      }
    }
  }

  lemma RefersMore(before: Columns, slot: Slot, env: Envelope, after: Columns)
    requires slot !in before && after == before[slot := env]
    ensures forall h :: Refers(after, h) <==> Refers(before, h) || env == RefTo(h)
  {
    forall h ensures Refers(after, h) <==> Refers(before, h) || env == RefTo(h) {
      if Refers(before, h) {
        var s :| s in before && before[s] == RefTo(h);
        assert after[s] == RefTo(h);
      }
      assert after[slot] == env;
    }
  }

  predicate Names(pending: seq<PendingObject>, h: string) {
    exists p :: p in pending && p.hash == h
  }

  ghost predicate PinnedSoFar(t: ObjectTable, t': ObjectTable, pending: seq<PendingObject>, h: string) {
    if Names(pending, h) then
      && h in t' && t'[h].pinned
      && if h in t then t'[h] == t[h].(pinned := true) else t'[h].logUntil.None? && PendingObject(h, t'[h].content) in pending
    else (h in t' <==> h in t) && (h in t ==> t'[h] == t[h])
  }

  lemma PinNone(t: ObjectTable, pending: seq<PendingObject>)
    ensures forall h {:trigger PinnedSoFar(t, t, pending[..0], h)} :: PinnedSoFar(t, t, pending[..0], h)
  {
  }

  lemma PinNext(t: ObjectTable, before: ObjectTable, pending: seq<PendingObject>, i: nat)
    requires i < |pending|
    requires forall h {:trigger PinnedSoFar(t, before, pending[..i], h)} :: PinnedSoFar(t, before, pending[..i], h)
    ensures var after := Pinned(before, pending[i].hash, pending[i].content);
            forall h {:trigger PinnedSoFar(t, after, pending[..i + 1], h)} :: PinnedSoFar(t, after, pending[..i + 1], h)
  {
    var after := Pinned(before, pending[i].hash, pending[i].content);
    forall h {:trigger PinnedSoFar(t, after, pending[..i + 1], h)} ensures PinnedSoFar(t, after, pending[..i + 1], h) {
      assert PinnedSoFar(t, before, pending[..i], h);
      PinOne(t, before, pending, i, after, h);
    }
  }

  lemma PinOne(t: ObjectTable, before: ObjectTable, pending: seq<PendingObject>, i: nat, after: ObjectTable, h: string)
    requires i < |pending| && PinnedSoFar(t, before, pending[..i], h)
    requires after == Pinned(before, pending[i].hash, pending[i].content)
    ensures PinnedSoFar(t, after, pending[..i + 1], h)
  {
    assert pending[..i + 1] == pending[..i] + [pending[i]];
    assert Names(pending[..i + 1], h) <==> Names(pending[..i], h) || pending[i].hash == h by {
      if Names(pending[..i], h) {
        var p :| p in pending[..i] && p.hash == h;
        assert p in pending[..i + 1];
      }
      assert pending[i] in pending[..i + 1];
    }
    assert pending[i] == PendingObject(pending[i].hash, pending[i].content);
  }

  ghost predicate LetGoSoFar(t: ObjectTable, t': ObjectTable, done: set<string>, referenced: set<string>, now: int, h: string) {
    if h in done && h !in referenced then
      (h in t' <==> h in t && !NoLogNeeds(t[h], now)) && (h in t' ==> t'[h] == t[h].(pinned := false))
    else (h in t' <==> h in t) && (h in t ==> t'[h] == t[h])
  }

  lemma LetGoNone(t: ObjectTable, done: set<string>, referenced: set<string>, now: int)
    requires done == {}
    ensures forall h {:trigger LetGoSoFar(t, t, done, referenced, now, h)} :: LetGoSoFar(t, t, done, referenced, now, h)
  {
  }

  lemma LetGoNext(t: ObjectTable, before: ObjectTable, done: set<string>, referenced: set<string>, now: int, x: string)
    requires x !in done
    requires forall h {:trigger LetGoSoFar(t, before, done, referenced, now, h)} :: LetGoSoFar(t, before, done, referenced, now, h)
    ensures var after := if x in referenced then before else Dereferenced(before, x, now);
            forall h {:trigger LetGoSoFar(t, after, done + {x}, referenced, now, h)} :: LetGoSoFar(t, after, done + {x}, referenced, now, h)
  {
    var after := if x in referenced then before else Dereferenced(before, x, now);
    forall h {:trigger LetGoSoFar(t, after, done + {x}, referenced, now, h)}
      ensures LetGoSoFar(t, after, done + {x}, referenced, now, h)
    {
      assert LetGoSoFar(t, before, done, referenced, now, h);
    }
  }

  lemma NamedIsWanted(c: Codec, ctx: Context, pending: seq<PendingObject>, h: string)
    requires forall h, content :: PendingObject(h, content) in pending <==> Wants(c, ctx, h, content)
    ensures Names(pending, h) <==> exists content :: Wants(c, ctx, h, content)
  {
    hide Wants;
    if Names(pending, h) {
      var p :| p in pending && p.hash == h;
      assert p == PendingObject(h, p.content);
    }
    if content :| Wants(c, ctx, h, content) { assert PendingObject(h, content) in pending; }
  }

  lemma DiffOfRows(c: Codec, t: ObjectTable, pinned: ObjectTable, ctx: Context, pending: seq<PendingObject>, loaded: set<string>,
                   referenced: set<string>, now: int, t': ObjectTable)
    requires forall h, content :: PendingObject(h, content) in pending <==> Wants(c, ctx, h, content)
    requires forall h :: h in referenced <==> Refers(EncodeAll(c, ctx), h)
    requires forall h {:trigger PinnedSoFar(t, pinned, pending, h)} :: PinnedSoFar(t, pinned, pending, h)
    requires forall h {:trigger LetGoSoFar(pinned, t', loaded, referenced, now, h)} :: LetGoSoFar(pinned, t', loaded, referenced, now, h)
    ensures Diffed(c, t, ctx, loaded, now, t')
  {
    forall h ensures RowDiff(c, t, ctx, loaded, now, t', h) {
      assert PinnedSoFar(t, pinned, pending, h) && LetGoSoFar(pinned, t', loaded, referenced, now, h);
      NamedIsWanted(c, ctx, pending, h);
      if content :| Wants(c, ctx, h, content) { WantedIsReferred(c, ctx, h, content); }
    }
  }
}
