/**
 * The caching decorators (backend/common/cache/decorator.py) in one process:
 * a decorated function answers as the undecorated one would.
 */
module CacheRefinement {
  import opened Wrappers
  import opened RedisKeys
  import opened Strings

  // ---------------------------------------------------------------- cache keys

  /** An argument of a call; text is how it is rendered, fields what can be looked up in it. */
  datatype Argument =
    | Null
    | Listing(text: string)
    | Plain(text: string, fields: map<string, string>)

  type Arguments = map<string, Argument>

  datatype KeyError = MissingParameter | ListParameter | MissingField | BuilderFailed

  /** How a decorator builds its key: from a parameter, by a builder, or not at all. */
  datatype Keying = Unkeyed | ByParameter(key: string) | ByBuilder(build: Arguments -> Result<string, KeyError>)

  /** A call of a decorated function: the name and keying of the decorator, and the arguments. */
  datatype Call = Call(name: string, keying: Keying, arguments: Arguments)

  function Lookup(arguments: Arguments, parameter: string): Argument {
    if parameter in arguments then arguments[parameter] else Null
  }

  /** The part of the key after the name, if any. */
  function KeyPart(call: Call): Result<Option<string>, KeyError> {
    match call.keying
    case Unkeyed => Ok(None)
    case ByBuilder(build) =>
      (match build(call.arguments)
       case Ok(part) => Ok(Some(part))
       case Err(e) => Err(e))
    case ByParameter(key) =>
      if key == "" then Ok(None)
      else
        match SplitOnce(key, '.')
        case (_, None) =>
          (match Lookup(call.arguments, key)
           case Null => Err(MissingParameter)
           case value => Ok(Some(value.text)))
        case (parameter, Some(field)) =>
          match Lookup(call.arguments, parameter)
          case Null => Err(MissingParameter)
          case Listing(_) => Err(ListParameter)
          case Plain(_, fields) =>
            if field in fields then Ok(Some(fields[field])) else Err(MissingField)
  }

  function BuildCacheKey(call: Call): Result<string, KeyError> {
    match KeyPart(call)
    case Err(e) => Err(e)
    case Ok(None) => Ok(call.name)
    case Ok(Some(part)) => Ok(call.name + ":" + part)
  }

  /** The whole law of keys that come from a parameter, or from a field of one after the first dot. */
  lemma KeyOfParameter(call: Call, parameter: string, field: Option<string>)
    requires '.' !in parameter && (field.None? ==> parameter != "")
    requires call.keying == ByParameter(if field.Some? then parameter + "." + field.value else parameter)
    ensures BuildCacheKey(call) ==
      if parameter !in call.arguments || call.arguments[parameter].Null? then Err(MissingParameter)
      else if field.None? then Ok(call.name + ":" + call.arguments[parameter].text)
      else if call.arguments[parameter].Listing? then Err(ListParameter)
      else if field.value !in call.arguments[parameter].fields then Err(MissingField)
      else Ok(call.name + ":" + call.arguments[parameter].fields[field.value])
  {
    if field.Some? {
      assert parameter + "." + field.value == parameter + ['.'] + field.value;
      SplitOnceAt(parameter, '.', field.value);
    }
  }

  /** Nothing tells the calls of the decorator apart. */
  predicate Keyless(call: Call) {
    call.keying.Unkeyed? || (call.keying.ByParameter? && call.keying.key == "")
  }

  /** The argument, field or built text that tells the calls of a decorator apart. */
  ghost predicate Renders(call: Call, text: string) {
    match call.keying
    case Unkeyed => false
    case ByBuilder(build) => build(call.arguments) == Ok(text)
    case ByParameter(key) =>
      || (key != "" && '.' !in key && key in call.arguments && !call.arguments[key].Null?
          && call.arguments[key].text == text)
      || exists parameter, field :: RendersField(call.arguments, key, parameter, field, text)
  }

  ghost predicate RendersField(arguments: Arguments, key: string, parameter: string, field: string, text: string) {
    && '.' !in parameter && key == parameter + "." + field
    && parameter in arguments && arguments[parameter].Plain?
    && field in arguments[parameter].fields && arguments[parameter].fields[field] == text
  }

  /** The key is the name, a colon and the rendered text, and the bare name only without one. */
  lemma KeyIsRendered(call: Call, text: string)
    ensures Renders(call, text) <==> BuildCacheKey(call) == Ok(call.name + ":" + text)
    ensures Keyless(call) <==> BuildCacheKey(call) == Ok(call.name)
  {
    if BuildCacheKey(call).Ok? && BuildCacheKey(call).value == call.name + ":" + text {
      assert KeyPart(call).value == Some(text) by {
        assert BuildCacheKey(call).value[|call.name| + 1..] == text;
      }
    }
    if call.keying.ByParameter? {
      ParameterIsRendered(call, text);
    }
  }

  lemma ParameterIsRendered(call: Call, text: string)
    requires call.keying.ByParameter?
    ensures Renders(call, text) <==> KeyPart(call) == Ok(Some(text))
  {
    var key := call.keying.key;
    var (parameter, field) := SplitOnce(key, '.');
    forall p, f | key == p + "." + f ensures '.' in key {
      assert key[|p|] == '.';
    }
    if field.Some? {
      assert key == parameter + "." + field.value;
      assert key[|parameter|] == '.';
      if p, f :| RendersField(call.arguments, key, p, f, text) {
        assert p + "." + f == p + ['.'] + f;
        SplitOnceAt(p, '.', f);
      }
      if KeyPart(call) == Ok(Some(text)) {
        assert RendersField(call.arguments, key, parameter, field.value, text);
      }
    }
  }

  /** The two calls are alike to their decorators. */
  ghost predicate Alike(a: Call, b: Call) {
    (Keyless(a) && Keyless(b)) || exists text :: Renders(a, text) && Renders(b, text)
  }

  /** Keys begin with the name, and under one name they are equal exactly when the calls are alike. */
  lemma KeysExtendTheName(a: Call, b: Call)
    requires BuildCacheKey(a).Ok? && BuildCacheKey(b).Ok?
    ensures a.name <= BuildCacheKey(a).value
    ensures a.name == b.name ==> (BuildCacheKey(a) == BuildCacheKey(b) <==> Alike(a, b))
  {
    if KeyPart(a).value.Some? {
      KeyIsRendered(a, KeyPart(a).value.value);
      KeyIsRendered(b, KeyPart(a).value.value);
    } else {
      KeyIsRendered(a, "");
      KeyIsRendered(b, "");
    }
    if text :| Renders(a, text) && Renders(b, text) {
      KeyIsRendered(a, text);
      KeyIsRendered(b, text);
    }
  }

  // ---------------------------------------------------------------- caches

  datatype Settings = Settings(localEnabled: bool, localTtl: nat, localMaxSize: nat, redisTtl: nat)

  /** JSON encoding, which may raise, and decoding; a decoded null is Python's None. */
  datatype Codec<!V> = Codec(encode: V -> Option<string>, decode: string -> Option<V>)

  /** An entry of the local cache, which may hold None. */
  datatype Kept<V> = Kept(value: Option<V>, expires: int)

  /** An entry in Redis; without an expiry when the configured time to live is zero. */
  datatype Stored = Stored(text: string, expires: Option<int>)

  datatype Caches<V> = Caches(local: Store<Kept<V>>, redis: Store<Stored>)

  function LocalGet<V>(local: Store<Kept<V>>, now: int, key: string): Option<V> {
    if key in local && now < local[key].expires then local[key].value else None
  }

  predicate Live(stored: Stored, now: int) {
    stored.expires.Some? ==> now < stored.expires.value
  }

  function RedisGet(redis: Store<Stored>, now: int, key: string): Option<string> {
    if key in redis && Live(redis[key], now) then Some(redis[key].text) else None
  }

  function LocalSet<V>(s: Settings, local: Store<Kept<V>>, now: int, key: string, value: Option<V>, gone: set<string>)
    : Store<Kept<V>>
  {
    if s.localEnabled then (local - gone)[key := Kept(value, now + s.localTtl)] else local
  }

  function RedisSet(s: Settings, redis: Store<Stored>, now: int, key: string, text: string): Store<Stored> {
    redis[key := Stored(text, if s.redisTtl != 0 then Some(now + s.redisTtl) else None)]
  }

  /** What goes wrong during a read, and which local entries a full cache gives up for a new one. */
  datatype Mishaps = Mishaps(getFails: bool, setFails: bool, gone: set<string>)

  datatype InvalidationError = DataMayBeInconsistent

  datatype Answer<V> = Answer(value: Option<V>, called: bool)

  /** A read of a key for which the function itself would return actual. */
  function AfterRead<V>(s: Settings, codec: Codec<V>, c: Caches<V>, now: int, key: string,
                        actual: Option<V>, m: Mishaps): (Caches<V>, Answer<V>)
  {
    if s.localEnabled && LocalGet(c.local, now, key).Some? then (c, Answer(LocalGet(c.local, now, key), false))
    else
      var found := RedisGet(c.redis, now, key);
      if !m.getFails && found.Some? then
        var value := codec.decode(found.value);
        (c.(local := LocalSet(s, c.local, now, key, value, m.gone)), Answer(value, false))
      else if actual.None? || codec.encode(actual.value).None? then (c, Answer(actual, true))
      else
        var text := codec.encode(actual.value).value;
        (Caches(LocalSet(s, c.local, now, key, codec.decode(text), m.gone),
                if m.setFails then c.redis else RedisSet(s, c.redis, now, key, text)),
         Answer(actual, true))
  }

  function Dropped<V>(data: Store<V>, name: string, key: string): Store<V> {
    if key == name then Purged(data, key, {}) else data - {key}
  }

  /**
   * Invalidation, and whether it succeeds.  Publishing the invalidation of a
   * single key lacks a required argument, so that with the local cache enabled
   * it raises before Redis is reached.
   */
  function AfterInvalidate<V>(s: Settings, c: Caches<V>, call: Call, redisFails: bool): (Caches<V>, bool) {
    match BuildCacheKey(call)
    case Err(_) => (c, false)
    case Ok(key) =>
      var local := if s.localEnabled then Dropped(c.local, call.name, key) else c.local;
      if (s.localEnabled && key != call.name) || redisFails then (c.(local := local), false)
      else (Caches(local, Dropped(c.redis, call.name, key)), true)
  }

  // ---------------------------------------------------------------- runs

  /** What the decorated functions would return at some moment, by call. */
  type World<V> = Call -> Option<V>

  /** The calls that are made of the decorated functions. */
  type Calls = Call -> bool

  /** Calls with the same key are interchangeable. */
  ghost predicate Determined<V(!new)>(made: Calls, world: World<V>) {
    forall a, b :: made(a) && made(b) && BuildCacheKey(a).Ok? && BuildCacheKey(a) == BuildCacheKey(b) ==>
      world(a) == world(b)
  }

  datatype State<!V> = State(now: int, caches: Caches<V>, world: World<V>)

  /**
   * Besides reads and writes: time passes, either cache loses an entry, and the
   * listener handles an invalidation message, of this process or of another.
   */
  datatype Step<!V> =
    | Read(call: Call, mishaps: Mishaps)
    | Write(call: Call, world: World<V>, redisFails: bool)
    | Tick(duration: nat)
    | LocalLoses(key: string)
    | RedisLoses(key: string)
    | Message(key: string, isDeletePrefix: bool)

  function Apply<V>(s: Settings, codec: Codec<V>, st: State<V>, step: Step<V>): State<V> {
    match step
    case Read(call, m) =>
      (match BuildCacheKey(call)
       case Err(_) => st
       case Ok(key) => st.(caches := AfterRead(s, codec, st.caches, st.now, key, st.world(call), m).0))
    case Write(call, world, fails) => st.(caches := AfterInvalidate(s, st.caches, call, fails).0, world := world)
    case Tick(d) => st.(now := st.now + d)
    case LocalLoses(k) => st.(caches := st.caches.(local := st.caches.local - {k}))
    case RedisLoses(k) => st.(caches := st.caches.(redis := st.caches.redis - {k}))
    case Message(k, isPrefix) =>
      st.(caches := st.caches.(local := if isPrefix then Purged(st.caches.local, k, {}) else st.caches.local - {k}))
  }

  /** Whether the write can have changed what is cached under the key. */
  predicate Concerns(call: Call, key: string) {
    var built := BuildCacheKey(call);
    built.Ok? && if built.value == call.name then call.name <= key else key == built.value
  }

  /** The write changes results only under its invalidation key. */
  ghost predicate Confined<V(!new)>(made: Calls, st: State<V>, step: Step<V>) {
    step.Write? ==> forall c :: made(c) && BuildCacheKey(c).Ok? && step.world(c) != st.world(c) ==>
      Concerns(step.call, BuildCacheKey(c).value)
  }

  predicate Succeeds<V>(s: Settings, st: State<V>, step: Step<V>) {
    step.Write? ==> AfterInvalidate(s, st.caches, step.call, step.redisFails).1
  }

  /** The text is the encoding of what the function returns now. */
  predicate Explains<V(==)>(codec: Codec<V>, result: Option<V>, text: string) {
    result.Some? && codec.encode(result.value) == Some(text)
  }

  /** The value is the function's present result, after a JSON round trip. */
  predicate Recoded<V(==)>(codec: Codec<V>, result: Option<V>, value: Option<V>) {
    && result.Some?
    && codec.encode(result.value).Some?
    && value == codec.decode(codec.encode(result.value).value)
  }

  /** Whatever is cached under the key of the call comes from what the call would return now. */
  ghost predicate CoherentFor<V(!new)>(codec: Codec<V>, st: State<V>, call: Call) {
    BuildCacheKey(call).Ok? ==>
      var k := BuildCacheKey(call).value;
      && (k in st.caches.local ==> Recoded(codec, st.world(call), st.caches.local[k].value))
      && (k in st.caches.redis ==> Explains(codec, st.world(call), st.caches.redis[k].text))
  }

  ghost predicate Coherent<V(!new)>(codec: Codec<V>, made: Calls, st: State<V>) {
    forall call :: made(call) ==> CoherentFor(codec, st, call)
  }

  lemma ReadKeepsCoherent<V(!new)>(s: Settings, codec: Codec<V>, made: Calls, st: State<V>, step: Step<V>)
    requires Coherent(codec, made, st) && Determined(made, st.world) && step.Read? && made(step.call)
    ensures Coherent(codec, made, Apply(s, codec, st, step))
  {
    assert CoherentFor(codec, st, step.call);
    forall c | made(c) ensures CoherentFor(codec, Apply(s, codec, st, step), c) {
      assert CoherentFor(codec, st, c);
    }
  }

  lemma WriteKeepsCoherent<V(!new)>(s: Settings, codec: Codec<V>, made: Calls, st: State<V>, step: Step<V>)
    requires Coherent(codec, made, st) && step.Write? && Confined(made, st, step) && Succeeds(s, st, step)
    requires !s.localEnabled ==> st.caches.local == map[]
    ensures Coherent(codec, made, Apply(s, codec, st, step))
  {
    var next := Apply(s, codec, st, step);
    forall c | made(c) ensures CoherentFor(codec, next, c) {
      assert CoherentFor(codec, st, c);
      if BuildCacheKey(c).Ok? {
        var k := BuildCacheKey(c).value;
        assert k in next.caches.local || k in next.caches.redis ==> !Concerns(step.call, k);
      }
    }
  }

  /** Time, losses and messages only remove entries. */
  lemma LossKeepsCoherent<V(!new)>(s: Settings, codec: Codec<V>, made: Calls, st: State<V>, step: Step<V>)
    requires Coherent(codec, made, st) && !step.Read? && !step.Write?
    ensures Coherent(codec, made, Apply(s, codec, st, step))
  {
    forall c | made(c) ensures CoherentFor(codec, Apply(s, codec, st, step), c) {
      assert CoherentFor(codec, st, c);
    }
  }

  /** Coherent, and without local entries when the local cache is off. */
  ghost predicate Sound<V(!new)>(s: Settings, codec: Codec<V>, made: Calls, st: State<V>) {
    Coherent(codec, made, st) && (!s.localEnabled ==> st.caches.local == map[])
  }

  ghost predicate Proper<V(!new)>(s: Settings, made: Calls, st: State<V>, step: Step<V>) {
    && (step.Read? ==> made(step.call))
    && Confined(made, st, step) && Succeeds(s, st, step)
  }

  lemma StepKeepsSound<V(!new)>(s: Settings, codec: Codec<V>, made: Calls, st: State<V>, step: Step<V>)
    requires Sound(s, codec, made, st) && Determined(made, st.world) && Proper(s, made, st, step)
    ensures Sound(s, codec, made, Apply(s, codec, st, step))
  {
    match step
    case Read(_, _) => ReadKeepsCoherent(s, codec, made, st, step);
    case Write(_, _, _) => WriteKeepsCoherent(s, codec, made, st, step);
    case _ => LossKeepsCoherent(s, codec, made, st, step);
  }

  /** Invalidations succeed and cover what is written; the reads are those of the program. */
  ghost predicate IsRun<V(!new)>(s: Settings, codec: Codec<V>, made: Calls, states: seq<State<V>>, steps: seq<Step<V>>)
  {
    && |states| == |steps| + 1
    && states[0].caches == Caches(map[], map[])
    && forall i :: 0 <= i < |steps| ==>
         Proper(s, made, states[i], steps[i]) && states[i + 1] == Apply(s, codec, states[i], steps[i])
  }

  /** Calls with the same key are interchangeable all the time. */
  ghost predicate StaysDetermined<V(!new)>(made: Calls, states: seq<State<V>>) {
    forall i :: 0 <= i < |states| ==> Determined(made, states[i].world)
  }

  lemma {:induction false} RunKeepsCoherent<V(!new)>(s: Settings, codec: Codec<V>, made: Calls,
                                                     states: seq<State<V>>, steps: seq<Step<V>>, i: nat)
    requires IsRun(s, codec, made, states, steps) && StaysDetermined(made, states) && i < |states|
    ensures Sound(s, codec, made, states[i])
  {
    if i > 0 {
      RunKeepsCoherent(s, codec, made, states, steps, i - 1);
      assert Proper(s, made, states[i - 1], steps[i - 1]);
      StepKeepsSound(s, codec, made, states[i - 1], steps[i - 1]);
    }
  }

  /** What a call of the decorated function answers, if it has a key. */
  function AnswerTo<V>(s: Settings, codec: Codec<V>, st: State<V>, call: Call, m: Mishaps)
    : Result<Option<V>, KeyError>
  {
    match BuildCacheKey(call)
    case Err(e) => Err(e)
    case Ok(key) => Ok(AfterRead(s, codec, st.caches, st.now, key, st.world(call), m).1.value)
  }

  /**
   * The cache refines the function: in a run whose invalidations succeed and
   * cover what is written, every read answers what a direct call would return,
   * or that value after a JSON round trip.
   */
  lemma ReadsAreCurrent<V(!new)>(s: Settings, codec: Codec<V>, made: Calls, states: seq<State<V>>,
                                 steps: seq<Step<V>>, i: nat, call: Call, m: Mishaps)
    requires IsRun(s, codec, made, states, steps) && StaysDetermined(made, states) && i < |states|
    requires made(call) && BuildCacheKey(call).Ok?
    ensures var answer := AnswerTo(s, codec, states[i], call, m);
            && answer.Ok?
            && (answer.value == states[i].world(call) || Recoded(codec, states[i].world(call), answer.value))
  {
    RunKeepsCoherent(s, codec, made, states, steps, i);
    assert CoherentFor(codec, states[i], call);
  }

  /** Decoding undoes encoding. */
  ghost predicate RoundTrips<V(!new)>(codec: Codec<V>) {
    forall v :: codec.encode(v).Some? ==> codec.decode(codec.encode(v).value) == Some(v)
  }

  /** Where the round trip is exact, a decorated function cannot be told from the function. */
  lemma CachingIsTransparent<V(!new)>(s: Settings, codec: Codec<V>, made: Calls, states: seq<State<V>>,
                                      steps: seq<Step<V>>, i: nat, call: Call, m: Mishaps)
    requires IsRun(s, codec, made, states, steps) && StaysDetermined(made, states) && i < |states|
    requires made(call) && BuildCacheKey(call).Ok? && RoundTrips(codec)
    ensures AnswerTo(s, codec, states[i], call, m) == Ok(states[i].world(call))
  {
    ReadsAreCurrent(s, codec, made, states, steps, i, call, m);
  }

  /** The calls of one decorated function, which depends only on what its decorator renders. */
  ghost predicate DependsOnText<V(!new)>(name: string, keying: Keying, world: World<V>) {
    forall a: Call, b: Call ::
      a.name == name && b.name == name && a.keying == keying && b.keying == keying && Alike(a, b) ==>
        world(a) == world(b)
  }

  ghost predicate CallsOnly(made: Calls, name: string, keying: Keying) {
    forall c: Call :: made(c) ==> c.name == name && c.keying == keying
  }

  /**
   * One decorated function, at every moment depending only on the argument,
   * field or built text that its decorator names: every call that has this text
   * answers as the direct call with its own arguments would.
   */
  lemma CallsAreTransparent<V(!new)>(s: Settings, codec: Codec<V>, name: string, keying: Keying, made: Calls,
                                     states: seq<State<V>>, steps: seq<Step<V>>, i: nat, call: Call, m: Mishaps)
    requires IsRun(s, codec, made, states, steps) && CallsOnly(made, name, keying) && RoundTrips(codec)
    requires forall j :: 0 <= j < |states| ==> DependsOnText(name, keying, states[j].world)
    requires i < |states| && made(call) && Alike(call, call)
    ensures AnswerTo(s, codec, states[i], call, m) == Ok(states[i].world(call))
  {
    forall j | 0 <= j < |states| ensures Determined(made, states[j].world) {
      TextDetermines(name, keying, made, states[j].world);
    }
    if text :| Renders(call, text) {
      KeyIsRendered(call, text);
    } else {
      KeyIsRendered(call, "");
    }
    CachingIsTransparent(s, codec, made, states, steps, i, call, m);
  }

  lemma TextDetermines<V(!new)>(name: string, keying: Keying, made: Calls, world: World<V>)
    requires CallsOnly(made, name, keying) && DependsOnText(name, keying, world)
    ensures Determined(made, world)
  {
    forall a, b | made(a) && made(b) && BuildCacheKey(a).Ok? && BuildCacheKey(a) == BuildCacheKey(b)
      ensures world(a) == world(b)
    {
      KeysExtendTheName(a, b);
    }
  }

  /** Once a value has been read and stored in Redis, the next read does not call the function. */
  lemma SecondReadIsCached<V>(s: Settings, codec: Codec<V>, c: Caches<V>, now: int, key: string,
                              actual: Option<V>, m: Mishaps, later: Option<V>, n: Mishaps)
    requires actual.Some? && codec.encode(actual.value).Some? && !m.setFails && !n.getFails
    ensures var first := AfterRead(s, codec, c, now, key, actual, m);
            var second := AfterRead(s, codec, first.0, now, key, later, n).1;
            && !second.called
            && (first.1.called ==> second.value == codec.decode(codec.encode(actual.value).value))
  {
  }

  /**
   * An invalidation with a valid key reaches a Redis entry under that key
   * exactly when Redis answers and it is by prefix or the local cache is off.
   */
  lemma InvalidationReachesRedisIff<V>(s: Settings, c: Caches<V>, call: Call, redisFails: bool)
    requires BuildCacheKey(call).Ok? && BuildCacheKey(call).value in c.redis
    ensures var after := AfterInvalidate(s, c, call, redisFails);
            && (after.1 <==> !redisFails && (Keyless(call) || !s.localEnabled))
            && (after.1 <==> BuildCacheKey(call).value !in after.0.redis)
  {
    KeyIsRendered(call, "");
  }

  /**
   * Invalidating a single key with the local cache enabled: unless the call has
   * the bare name as its key, the next read still answers the old value.
   */
  lemma KeyedInvalidationServesStale<V(!new)>(s: Settings, codec: Codec<V>, st: State<V>, call: Call, world: World<V>,
                                              read: Call, m: Mishaps)
    requires CoherentFor(codec, st, read) && BuildCacheKey(read) == BuildCacheKey(call)
    requires s.localEnabled && BuildCacheKey(call).Ok? && !Keyless(call)
    requires RedisGet(st.caches.redis, st.now, BuildCacheKey(call).value).Some? && !m.getFails
    ensures var answer := AnswerTo(s, codec, Apply(s, codec, st, Write(call, world, false)), read, m);
            answer.Ok? && Recoded(codec, st.world(read), answer.value)
  {
    KeyIsRendered(call, "");
  }

  /** An invalidation removes nothing that it does not concern, and no more from Redis than locally. */
  lemma InvalidationSpares<V>(s: Settings, c: Caches<V>, call: Call, redisFails: bool, k: string)
    requires BuildCacheKey(call).Ok?
    ensures var after := AfterInvalidate(s, c, call, redisFails).0;
            var meant := if Keyless(call) then call.name <= k else BuildCacheKey(call).value == k;
            && (k in after.local <==> k in c.local && !(s.localEnabled && meant))
            && (k in after.redis <==> k in c.redis && !(AfterInvalidate(s, c, call, redisFails).1 && meant))
            && (k in after.local ==> after.local[k] == c.local[k])
            && (k in after.redis ==> after.redis[k] == c.redis[k])
  {
    KeyIsRendered(call, "");
  }

  /**
   * How long a value lives: after a call that filled empty caches, a later read
   * calls the function again exactly when the local entry is off or expired and
   * the Redis entry has expired, which it never does without a time to live.
   */
  lemma FilledUntil<V>(s: Settings, codec: Codec<V>, now: int, key: string, actual: V, m: Mishaps,
                       later: int, result: Option<V>, n: Mishaps)
    requires codec.encode(actual).Some? && codec.decode(codec.encode(actual).value).Some?
    requires now <= later && !m.setFails && !n.getFails
    ensures var filled := AfterRead(s, codec, Caches(map[], map[]), now, key, Some(actual), m);
            && filled.1 == Answer(Some(actual), true)
            && (AfterRead(s, codec, filled.0, later, key, result, n).1.called <==>
                  && !(s.localEnabled && later < now + s.localTtl)
                  && s.redisTtl != 0 && now + s.redisTtl <= later)
  {
  }

  // ---------------------------------------------------------------- local.py

  class LocalCacheManager<V> {
    var hotCache: Store<Kept<V>>
    const settings: Settings

    constructor (settings: Settings)
      ensures hotCache == map[] && this.settings == settings
    {
      hotCache := map[];
      this.settings := settings;
    }

    method Get(key: string, now: int) returns (value: Option<V>)
      ensures value == LocalGet(hotCache, now, key)
    {
      if key in hotCache && now < hotCache[key].expires {
        value := hotCache[key].value;
      } else {
        value := None;
      }
    }

    /** A full cache gives up an entry for a new one. */
    method Set(key: string, value: Option<V>, now: int)
      modifies this
      ensures exists gone: set<string> :: gone <= old(hotCache).Keys - {key} && |gone| <= 1 &&
                hotCache == (old(hotCache) - gone)[key := Kept(value, now + settings.localTtl)]
      ensures old(0 < |hotCache| <= settings.localMaxSize) ==> |hotCache| <= settings.localMaxSize
    {
      ghost var gone: set<string> := {};
      if key !in hotCache && settings.localMaxSize > 0 && |hotCache| >= settings.localMaxSize {
        var victim :| victim in hotCache;
        gone := {victim};
        hotCache := hotCache - {victim};
      }
      hotCache := hotCache[key := Kept(value, now + settings.localTtl)];
      assert hotCache == (old(hotCache) - gone)[key := Kept(value, now + settings.localTtl)];
    }

    method Delete(key: string, now: int) returns (found: bool)
      modifies this
      ensures found <==> old(key in hotCache && now < hotCache[key].expires)
      ensures hotCache == old(hotCache) - {key}
    {
      found := key in hotCache && now < hotCache[key].expires;
      hotCache := hotCache - {key};
    }

    method DeletePrefix(prefix: string, exclude: set<string>)
      modifies this
      ensures hotCache == Purged(old(hotCache), prefix, exclude)
    {
      var rest := hotCache.Keys;
      while rest != {}
        invariant rest <= hotCache.Keys
        invariant forall k :: k in hotCache <==> k in old(hotCache) && (k in rest || !(prefix <= k && k !in exclude))
        invariant forall k :: k in hotCache ==> hotCache[k] == old(hotCache)[k]
      {
        var key :| key in rest;
        rest := rest - {key};
        if prefix <= key && key !in exclude {
          hotCache := hotCache - {key};
        }
      }
    }

    /** What the listener does with an invalidation message. */
    method HandleMessage(key: string, isDeletePrefix: bool, now: int)
      modifies this
      ensures hotCache == if isDeletePrefix then Purged(old(hotCache), key, {}) else old(hotCache) - {key}
    {
      if !isDeletePrefix {
        var _ := Delete(key, now);
      } else {
        DeletePrefix(key, {});
      }
    }
  }

  // ---------------------------------------------------------------- decorator.py

  class CacheDecorators<V> {
    const settings: Settings
    const codec: Codec<V>
    const local: LocalCacheManager<V>
    const redis: RedisCli<Stored>

    constructor (settings: Settings, codec: Codec<V>)
      ensures this.settings == settings && this.codec == codec
      ensures local.settings == settings && fresh(local) && fresh(redis)
      ensures Contents() == Caches(map[], map[])
    {
      this.settings := settings;
      this.codec := codec;
      local := new LocalCacheManager(settings);
      redis := new RedisCli();
    }

    function Contents(): Caches<V>
      reads local, redis
    {
      Caches(local.hotCache, redis.data)
    }

    method SetLocal(key: string, value: Option<V>, now: int)
      requires local.settings == settings
      modifies local
      ensures exists gone: set<string> ::
                local.hotCache == LocalSet(settings, old(local.hotCache), now, key, value, gone)
    {
      if settings.localEnabled {
        local.Set(key, value, now);
        ghost var kept := Kept(value, now + settings.localTtl);
        ghost var gone: set<string> :| local.hotCache == (old(local.hotCache) - gone)[key := kept];
        assert local.hotCache == LocalSet(settings, old(local.hotCache), now, key, value, gone);
      } else {
        assert local.hotCache == LocalSet(settings, old(local.hotCache), now, key, value, {});
      }
    }

    /** The wrapper of cached, around a function that would return actual. */
    method Cached(call: Call, actual: Option<V>, now: int, getFails: bool, setFails: bool)
      returns (r: Result<Answer<V>, KeyError>)
      requires local.settings == settings
      modifies local, redis
      ensures r.Err? <==> BuildCacheKey(call).Err?
      ensures r.Err? ==> r.error == BuildCacheKey(call).error && Contents() == old(Contents())
      ensures r.Ok? ==> exists gone: set<string> ::
                  (Contents(), r.value) == AfterRead(settings, codec, old(Contents()), now, BuildCacheKey(call).value,
                                                     actual, Mishaps(getFails, setFails, gone))
    {
      if BuildCacheKey(call).Err? {
        return Err(BuildCacheKey(call).error);
      }
      var key := BuildCacheKey(call).value;
      ghost var gone: set<string> := {};

      if settings.localEnabled {
        var localValue := local.Get(key, now);
        if localValue.Some? {
          assert (Contents(), Answer(localValue, false)) ==
            AfterRead(settings, codec, old(Contents()), now, key, actual, Mishaps(getFails, setFails, gone));
          return Ok(Answer(localValue, false));
        }
      }

      if !getFails && key in redis.data && Live(redis.data[key], now) {
        var result := codec.decode(redis.data[key].text);
        SetLocal(key, result, now);
        gone :| local.hotCache == LocalSet(settings, old(local.hotCache), now, key, result, gone);
        r := Ok(Answer(result, false));
      } else {
        if actual.Some? && codec.encode(actual.value).Some? {
          var serialized := codec.encode(actual.value).value;
          var deserialized := codec.decode(serialized);
          SetLocal(key, deserialized, now);
          gone :| local.hotCache == LocalSet(settings, old(local.hotCache), now, key, deserialized, gone);
          if !setFails {
            if settings.redisTtl != 0 {
              redis.data := redis.data[key := Stored(serialized, Some(now + settings.redisTtl))];
            } else {
              redis.data := redis.data[key := Stored(serialized, None)];
            }
          }
        }
        r := Ok(Answer(actual, true));
      }
      assert (Contents(), r.value) ==
        AfterRead(settings, codec, old(Contents()), now, key, actual, Mishaps(getFails, setFails, gone));
    }

    /** The wrapper of cache_invalidate, after the function has returned result. */
    method CacheInvalidate<R>(call: Call, result: R, now: int, redisFails: bool, atomic: bool := true)
      returns (r: Result<R, InvalidationError>)
      requires local.settings == settings
      modifies local, redis
      ensures var (after, success) := AfterInvalidate(settings, old(Contents()), call, redisFails);
              Contents() == after && r == if success || !atomic then Ok(result) else Err(DataMayBeInconsistent)
    {
      var success := false;
      if BuildCacheKey(call).Ok? {
        var key := BuildCacheKey(call).value;
        if settings.localEnabled {
          if key == call.name {
            local.DeletePrefix(key, {});
          } else {
            var _ := local.Delete(key, now);
          }
        }
        if settings.localEnabled && key != call.name {
          // The publication raises.
        } else if !redisFails {
          if key == call.name {
            redis.DeletePrefix(key, {});
          } else {
            redis.Delete([key]);
            assert (set k | k in [key]) == {key};
          }
          success := true;
        }
      }
      if atomic && !success {
        return Err(DataMayBeInconsistent);
      }
      return Ok(result);
    }
  }
}
