/**
  Channel identifiers are cut to 24 bytes on the wire. Exactly when a server that only sees the cut identifiers still
  holds what a client believes, and what that means for every run of the two clients.
 */
module WireChannels {
  import opened Utf8
  import opened TextField
  import opened FieldReading
  import opened Frame
  import opened FrameDecoders

  /** The identifier the backend reads out of a frame sent for a channel. */
  function OnWire(channelId: Text): (t: seq<int>)
  {
    StripNuls(Truncate(channelId, LEN_CHANNEL))
  }

  lemma OnWireIsParsed(op: Opcode, tenant: Tenant, channelId: Text, payload: Text)
    ensures var r := RustParse(EncodeFrame(op, tenant, channelId, payload));
            r.Ok? && r.value.channel == OnWire(channelId)
  {
    RoundTrip(op, tenant, channelId, payload);
  }

  /** Two identifiers that share their first 24 bytes are one on the wire. */
  lemma LongNamesCollide(front: Text, a: Text, b: Text)
    requires |Encode(front)| == LEN_CHANNEL
    ensures OnWire(front + a) == OnWire(front + b)
  {
    FitExact(front, a, LEN_CHANNEL);
    FitExact(front, b, LEN_CHANNEL);
  }

  // ---------------------------------------------------------------- subscriptions under other names

  /** What one frame does to the subscriptions a server holds. */
  datatype Change<K> = Add(key: K) | Remove(key: K) | Neither

  function Held<K>(log: seq<Change<K>>): (s: set<K>)
  {
    if log == [] then {}
    else
      var before, last := Held(log[..|log| - 1]), log[|log| - 1];
      match last
      case Add(k) => before + {k}
      case Remove(k) => before - {k}
      case Neither => before
  }

  function Rename<K, N>(c: Change<K>, name: K -> N): (d: Change<N>)
  {
    match c
    case Add(k) => Add(name(k))
    case Remove(k) => Remove(name(k))
    case Neither => Neither
  }

  /** The subscriptions of a server that sees other names. */
  function HeldAs<K, N>(log: seq<Change<K>>, name: K -> N): (s: set<N>)
  {
    Held(seq(|log|, i requires 0 <= i < |log| => Rename(log[i], name)))
  }

  function Image<K, N>(keys: set<K>, name: K -> N): (s: set<N>)
  {
    set k | k in keys :: name(k)
  }

  predicate InjectiveOn<K(!new), N(==)>(keys: set<K>, name: K -> N)
  {
    forall a, b | a in keys && b in keys && name(a) == name(b) :: a == b
  }

  predicate Over<K>(log: seq<Change<K>>, keys: set<K>)
  {
    forall i | 0 <= i < |log| :: log[i].Neither? || log[i].key in keys
  }

  lemma HeldAsSnoc<K, N>(log: seq<Change<K>>, name: K -> N)
    requires log != []
    ensures var before := HeldAs(log[..|log| - 1], name);
            HeldAs(log, name) == match log[|log| - 1]
                                 case Add(k) => before + {name(k)}
                                 case Remove(k) => before - {name(k)}
                                 case Neither => before
  {
    var n := |log| - 1;
    var renamed := seq(|log|, i requires 0 <= i < |log| => Rename(log[i], name));
    assert renamed[..n] == seq(n, i requires 0 <= i < n => Rename(log[..n][i], name));
  }

  lemma {:induction false} HeldAgrees<K(!new), N>(log: seq<Change<K>>, keys: set<K>, name: K -> N)
    requires Over(log, keys) && InjectiveOn(keys, name)
    ensures Held(log) <= keys && HeldAs(log, name) == Image(Held(log), name)
  {
    if log != [] {
      var n := |log| - 1;
      HeldAgrees(log[..n], keys, name);
      HeldAsSnoc(log, name);
      var before := Held(log[..n]);
      match log[n] {
        case Add(k) => assert Image(before + {k}, name) == Image(before, name) + {name(k)};
        case Remove(k) => assert Image(before - {k}, name) == Image(before, name) - {name(k)};
        case Neither =>
      }
    }
  }

  function CollidingLog<K>(a: K, b: K): (log: seq<Change<K>>)
  {
    [Add(a), Add(b), Remove(a)]
  }

  /** Two channels under one name: unsubscribing from the first silences the second. */
  lemma CollisionDisagrees<K(!new), N>(a: K, b: K, name: K -> N)
    requires a != b && name(a) == name(b)
    ensures Held(CollidingLog(a, b)) == {b} && HeldAs(CollidingLog(a, b), name) == {}
  {
    var log := CollidingLog(a, b);
    assert log[..2] == [log[0], log[1]] && log[..2][..1] == [log[0]] && [log[0]][..0] == [];
    HeldAsSnoc([log[0]], name);
    HeldAsSnoc(log[..2], name);
    HeldAsSnoc(log, name);
    assert HeldAs([log[0]][..0], name) == {};
    assert Held([log[0]]) == {a} && HeldAs([log[0]], name) == {name(a)};
    assert Held(log[..2]) == {a, b} && HeldAs(log[..2], name) == {name(a)};
  }

  /**
    What the server holds is what the client believes, for every sequence of frames over a set of channels, exactly
    when no two of the channels have the same name.
   */
  lemma NamesExact<K(!new), N>(keys: set<K>, name: K -> N)
    ensures InjectiveOn(keys, name) <==>
            forall log: seq<Change<K>> | Over(log, keys) :: HeldAs(log, name) == Image(Held(log), name)
  {
    if InjectiveOn(keys, name) {
      forall log: seq<Change<K>> | Over(log, keys) ensures HeldAs(log, name) == Image(Held(log), name) {
        HeldAgrees(log, keys, name);
      }
    } else {
      var log := DisagreeingLog(keys, name);
    }
  }

  lemma DisagreeingLog<K(!new), N>(keys: set<K>, name: K -> N) returns (log: seq<Change<K>>)
    requires !InjectiveOn(keys, name)
    ensures Over(log, keys) && HeldAs(log, name) != Image(Held(log), name)
  {
    var a, b :| a in keys && b in keys && name(a) == name(b) && a != b;
    log := CollidingLog(a, b);
    CollisionDisagrees(a, b, name);
    assert name(b) in Image({b}, name);
  }
}
