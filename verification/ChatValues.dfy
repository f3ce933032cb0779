/** Chat messages as plain JSON values, and the projection under which the chain
    client compares them. */
module ChatValues {
  import opened Wrappers

  datatype Value =
    | Null
    | Bool(flag: bool)
    | Number(n: int)
    | Text(text: string)
    | List(items: seq<Value>)
    | Dict(entries: map<string, Value>)

  type Message = map<string, Value>

  const DROPPED_KEYS := {"extra", "provider_specific_fields"}

  const CHAIN_KEYS := {"role", "content", "reasoning_content", "tool_calls", "tool_call_id", "name"}

  /** The entries `_plain_value` keeps. */
  predicate Kept(entries: map<string, Value>, key: string) {
    key in entries && key !in DROPPED_KEYS && entries[key] != Null
  }

  function PlainValue(v: Value): Value
    decreases v, 1
  {
    match v
    case List(items) => List(seq(|items|, i requires 0 <= i < |items| => PlainValue(items[i])))
    case Dict(entries) => Dict(PlainEntries(entries, v))
    case _ => v
  }

  /** The entries of the dictionary `owner`, kept and made plain. */
  function PlainEntries(entries: map<string, Value>, ghost owner: Value): map<string, Value>
    requires owner == Dict(entries)
    decreases owner, 0
  {
    map key | key in entries && Kept(entries, key) :: PlainValue(entries[key])
  }

  function ChainMessage(message: Message): Message {
    var plain := PlainEntries(message, Dict(message));
    map key | key in plain && key in CHAIN_KEYS :: plain[key]
  }

  function ChainMessages(messages: seq<Message>): seq<Message> {
    seq(|messages|, i requires 0 <= i < |messages| => ChainMessage(messages[i]))
  }

  lemma {:induction false} PlainValueKeepsNull(v: Value)
    ensures PlainValue(v) == Null <==> v == Null
  {
  }

  lemma {:induction false} PlainValueIdempotent(v: Value)
    ensures PlainValue(PlainValue(v)) == PlainValue(v)
  {
    match v
    case List(items) =>
      forall i | 0 <= i < |items| ensures PlainValue(PlainValue(items[i])) == PlainValue(items[i]) {
        PlainValueIdempotent(items[i]);
      }
    case Dict(entries) =>
      var once := PlainEntries(entries, v);
      forall key | key in once
        ensures Kept(once, key) && PlainValue(once[key]) == once[key]
      {
        PlainValueIdempotent(entries[key]);
        PlainValueKeepsNull(entries[key]);
      }
      assert PlainEntries(once, Dict(once)) == once;
    case _ =>
  }

  /** Projecting a message twice changes nothing, so a reply replayed from the
      committed history compares equal to the committed one. */
  lemma {:induction false} ChainMessageIdempotent(message: Message)
    ensures ChainMessage(ChainMessage(message)) == ChainMessage(message)
  {
    var once := ChainMessage(message);
    forall key | key in once
      ensures Kept(once, key) && PlainValue(once[key]) == once[key]
    {
      PlainValueIdempotent(message[key]);
      PlainValueKeepsNull(message[key]);
    }
    assert ChainMessage(once) == once;
  }

  // ----- What a value loses -----

  datatype Hop = At(index: nat) | Under(key: string)

  /** What is found in a value at the end of a path of list places and dictionary keys. */
  function Follow(v: Value, path: seq<Hop>): Option<Value>
    decreases |path|
  {
    if path == [] then Some(v)
    else
      match path[0]
      case At(i) => if v.List? && i < |v.items| then Follow(v.items[i], path[1..]) else None
      case Under(key) => if v.Dict? && key in v.entries then Follow(v.entries[key], path[1..]) else None
  }

  /** The path goes through a dropped key or ends in a null entry. */
  ghost predicate Lost(v: Value, path: seq<Hop>) {
    || Under("extra") in path || Under("provider_specific_fields") in path
    || (path != [] && path[|path| - 1].Under? && Follow(v, path) == Some(Null))
  }

  /** The same kind of value, and the same value if it has no parts. */
  ghost predicate Alike(v: Value, w: Value) {
    match v
    case List(items) => w.List? && |w.items| == |items|
    case Dict(_) => w.Dict?
    case _ => w == v
  }

  lemma {:induction false} NothingBehindNull(v: Value, path: seq<Hop>)
    requires v == Null && path != []
    ensures Follow(v, path) == None
  {
  }

  /** Making a value plain loses, at every depth, exactly what stands under a dropped key and
      the null entries of dictionaries; all else is found where it was. */
  lemma {:induction false} PlainValueKeeps(v: Value, path: seq<Hop>)
    ensures var found, plain := Follow(v, path), Follow(PlainValue(v), path);
            && (plain.Some? <==> found.Some? && !Lost(v, path))
            && (plain.Some? ==> Alike(found.value, plain.value))
    decreases |path|
  {
    if path != [] {
      var rest := path[1..];
      assert path == [path[0]] + rest;
      assert rest != [] ==> rest[|rest| - 1] == path[|path| - 1];
      if path[0].At? && v.List? && path[0].index < |v.items| {
        PlainValueKeeps(v.items[path[0].index], rest);
      } else if path[0].Under? && v.Dict? && path[0].key in v.entries {
        var entry := v.entries[path[0].key];
        PlainValueKeeps(entry, rest);
        if entry == Null && rest != [] {
          NothingBehindNull(entry, rest);
        }
      }
    }
  }

  /** What the projection shows of a key. */
  ghost function Shown(message: Message, key: string): Option<Value> {
    if key in message && message[key] != Null then Some(PlainValue(message[key])) else None
  }

  /** Two messages have the same projection exactly if they agree in role, content, reasoning,
      tool calls, tool call id and name, up to what is dropped inside these. */
  lemma {:induction false} ChainMessageSees(a: Message, b: Message)
    ensures ChainMessage(a) == ChainMessage(b) <==>
            forall key | key in {"role", "content", "reasoning_content", "tool_calls", "tool_call_id", "name"} ::
              Shown(a, key) == Shown(b, key)
  {
    ProjectionIs(a);
    ProjectionIs(b);
    hide ChainMessage, PlainValue, Kept, Shown;
    var keys := {"role", "content", "reasoning_content", "tool_calls", "tool_call_id", "name"};
    if forall key | key in keys :: Shown(a, key) == Shown(b, key) {
      SameShown(a, b);
    }
  }

  lemma {:induction false} SameShown(a: Message, b: Message)
    requires forall key | key in {"role", "content", "reasoning_content", "tool_calls", "tool_call_id", "name"} ::
               Shown(a, key) == Shown(b, key)
    ensures ChainMessage(a) == ChainMessage(b)
  {
    ProjectionIs(a);
    ProjectionIs(b);
    hide ChainMessage, PlainValue, Kept, Shown;
    assert forall key :: key in ChainMessage(a).Keys <==> key in ChainMessage(b).Keys;
  }

  lemma {:induction false} ProjectionIs(m: Message)
    ensures var keys := {"role", "content", "reasoning_content", "tool_calls", "tool_call_id", "name"};
            && (forall key | key in keys :: Shown(m, key) == if key in ChainMessage(m) then Some(ChainMessage(m)[key]) else None)
            && (forall key | key in ChainMessage(m) :: key in keys && Shown(m, key) == Some(ChainMessage(m)[key]))
  {
    hide PlainValue;
  }

  /** The projection sees neither the provider's extra fields nor empty ones:
      stripping them before a request, as `_prepare_messages_for_api` does, cannot
      make a transcript look changed. */
  lemma {:induction false} ChainMessageIgnores(message: Message, key: string)
    requires key !in CHAIN_KEYS || (key in message && message[key] == Null)
    ensures ChainMessage(message - {key}) == ChainMessage(message)
  {
    var less := message - {key};
    assert forall k | k in CHAIN_KEYS :: Kept(less, k) <==> Kept(message, k);
    assert forall k | k in CHAIN_KEYS && Kept(message, k) :: less[k] == message[k];
  }
}
