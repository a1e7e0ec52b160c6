/** The message handlers of the monitoring page (public/app.js:93-336): the
    registry of submarines, the handlers of the three server message types, and
    the key search driven by the decryption interval. The browser's `atob` and
    the two uses of `JSON.parse` are parameters of the tracker. */
module Tracker {
  import opened Wrappers
  import opened Cipher
  import opened Morse
  import opened Fragments
  import opened KeySearch
  import opened Registry

  /** What replaces the plain and Morse views of a message whose key is unknown. */
  const Placeholder := "[Mensaje Encriptado]"

  /** What `JSON.parse` of a position update stands for: the new position, or
      None where parsing or reading `info.position` would throw. */
  type PositionParser = string -> Option<Position>

  /** The three views of a completed message: 'Texto Plano', 'Morse', 'Encriptado'. */
  datatype Views = Views(plain: string, morse: string, encrypted: string)

  /** A server message, already parsed from JSON. */
  datatype Message =
    | PingResponse(detected: Option<seq<Detection>>)
    | SubmarineUpdate(updateId: string, updatePayload: string)
    | Communication(id: string, timestamp: string, part: nat, total: nat, payload: string)
    | Other(kind: string)

  /** The interval currently trying keys for submarine `id`, at key `key`. */
  datatype KeyCursor = KeyCursor(id: string, key: nat)

  /** What one tick of the decryption interval did. */
  datatype TickResult =
    | KeysExhausted
    | Rejected(key: nat, text: string)
    | Accepted(key: nat, text: string, info: Profile)

  /** `if (sub.key)`: a known key, where key 0 counts as no key. */
  predicate KeyTruthy(key: Option<nat>)
  {
    key.Some? && key.value != 0
  }

  /** A buffer still waiting for parts: consistent, and short of its total
      (a complete one is deleted at once). */
  predicate Pending(a: Assembly)
  {
    Consistent(a) && a.receivedCount < |a.fragments|
  }

  /** What holds of every record: the trail ends at the current position,
      every buffer is pending, and key, profile, name and colour agree with the
      state, which in turn agrees with the outcome of the key search. */
  ghost predicate Sound(s: Submarine, atob: Base64Decoder, parse: ProfileParser)
  {
    |s.history| > 0 && s.history[|s.history| - 1] == s.position &&
    (forall t :: t in s.fragments ==> Pending(s.fragments[t])) &&
    (s.key.Some? <==> s.state == Decrypted) &&
    (s.info.Some? <==> s.state == Decrypted) &&
    (s.state != Decrypted ==> s.name == UnknownName && s.color.None?) &&
    (s.state != Encrypted ==> s.difficulty < KeyLimit) &&
    (s.state == Decrypted ==>
       s.key.value < KeyLimit && s.name == s.info.value.name && s.color == s.info.value.color &&
       Search(s.encryptedPayload, s.difficulty, 0, atob, parse) == Found(s.key.value, s.info.value)) &&
    (s.state == Failed ==> Search(s.encryptedPayload, s.difficulty, 0, atob, parse) == Exhausted)
  }

  /** The record after a successful key: name, state, key, profile and colour
      (public/app.js:323-327). */
  function Solved(s: Submarine, key: nat, info: Profile): Submarine
  {
    s.(name := info.name, state := Decrypted, key := Some(key), info := Some(info), color := info.color)
  }

  /** The record after a search with the given outcome. */
  function Concluded(s: Submarine, outcome: Outcome): Submarine
  {
    match outcome
    case Found(key, info) => Solved(s, key, info)
    case Exhausted => s.(state := Failed)
  }

  /** The registry after a position update (public/app.js:169-190): nothing
      changes unless the submarine is known, has a truthy key and the
      decrypted update parses; then the position is set and appended. */
  function AfterUpdate(subs: map<string, Submarine>, id: string, payload: string,
                       atob: Base64Decoder, parsePosition: PositionParser): map<string, Submarine>
    requires id in subs && KeyTruthy(subs[id].key) ==> subs[id].key.value < KeyLimit
  {
    if id in subs && KeyTruthy(subs[id].key) then
      match parsePosition(Decrypt(payload, subs[id].key.value, atob))
      case Some(p) => subs[id := subs[id].(position := p, history := subs[id].history + [p])]
      case None => subs
    else subs
  }

  /** The views of a message completed with ciphertext `joined`
      (public/app.js:233-242). */
  function MessageViews(joined: string, key: Option<nat>, atob: Base64Decoder): Views
    requires KeyTruthy(key) ==> key.value < KeyLimit
  {
    if KeyTruthy(key) then
      var morse := Decrypt(joined, key.value, atob);
      Views(MorseToText(morse), morse, joined)
    else Views(Placeholder, Placeholder, joined)
  }

  /** The buffer a packet for `timestamp` is placed into: the stored one, or a
      fresh one of `total` slots (public/app.js:215-220). */
  function Buffer(s: Submarine, timestamp: string, total: nat): Assembly
  {
    if timestamp in s.fragments then s.fragments[timestamp] else NewAssembly(total)
  }

  /** The record and the completed views after one intercepted packet of a known
      submarine (public/app.js:213-245). */
  function Receive(s: Submarine, timestamp: string, part: nat, total: nat, payload: string,
                   atob: Base64Decoder): (Submarine, Option<Views>)
    requires 1 <= part <= total
    requires timestamp in s.fragments ==> |s.fragments[timestamp].fragments| == total
    requires KeyTruthy(s.key) ==> s.key.value < KeyLimit
  {
    var buffer := Buffer(s, timestamp, total);
    var a := Place(buffer, part, payload);
    if a.receivedCount == total then
      var v := MessageViews(JoinSlots(a.fragments), s.key, atob);
      (s.(packetsReceived := s.packetsReceived + 1, messagesReceived := s.messagesReceived + 1,
          fragments := s.fragments - {timestamp}, lastMessage := v.plain), Some(v))
    else
      (s.(packetsReceived := s.packetsReceived + 1, fragments := s.fragments[timestamp := a]), None)
  }

  /** Every packet of a known submarine is counted; the message counter moves by
      one exactly when a message completes, and a completed message leaves no
      buffer behind and becomes the last message. */
  lemma ReceiveCounts(s: Submarine, timestamp: string, part: nat, total: nat, payload: string, atob: Base64Decoder)
    requires 1 <= part <= total
    requires timestamp in s.fragments ==> |s.fragments[timestamp].fragments| == total
    requires KeyTruthy(s.key) ==> s.key.value < KeyLimit
    ensures var (t, v) := Receive(s, timestamp, part, total, payload, atob);
      t.packetsReceived == s.packetsReceived + 1 &&
      t.messagesReceived == s.messagesReceived + (if v.Some? then 1 else 0) &&
      (v.Some? ==> timestamp !in t.fragments && t.lastMessage == v.value.plain) &&
      (v.None? ==> timestamp in t.fragments && t.lastMessage == s.lastMessage)
  {
  }

  /** A completed message keeps its raw ciphertext in the encrypted view; with
      no usable key the other two views and the last message are the
      placeholder, and with one the plain view is the Morse decoding of the
      decrypted ciphertext. */
  lemma CompletedViews(s: Submarine, timestamp: string, part: nat, total: nat, payload: string, atob: Base64Decoder)
    requires 1 <= part <= total
    requires timestamp in s.fragments ==> |s.fragments[timestamp].fragments| == total
    requires KeyTruthy(s.key) ==> s.key.value < KeyLimit
    ensures var (t, v) := Receive(s, timestamp, part, total, payload, atob);
      v.Some? ==>
        t.lastMessage == v.value.plain &&
        (!KeyTruthy(s.key) ==> v.value.plain == Placeholder && v.value.morse == Placeholder) &&
        (KeyTruthy(s.key) ==>
           v.value.morse == Decrypt(v.value.encrypted, s.key.value, atob) &&
           v.value.plain == MorseToText(v.value.morse))
  {
  }

  /** A part already written is ignored, apart from the packet counter. */
  lemma DuplicatePartIgnored(s: Submarine, timestamp: string, part: nat, total: nat, payload: string, atob: Base64Decoder)
    requires 1 <= part <= total
    requires timestamp in s.fragments && |s.fragments[timestamp].fragments| == total
    requires Pending(s.fragments[timestamp]) && s.fragments[timestamp].fragments[part - 1].Some?
    requires KeyTruthy(s.key) ==> s.key.value < KeyLimit
    ensures Receive(s, timestamp, part, total, payload, atob) ==
      (s.(packetsReceived := s.packetsReceived + 1), None)
  {
    assert s.fragments[timestamp := s.fragments[timestamp]] == s.fragments;
  }

  /** A message completes on the packet that brings its last missing part, and
      its ciphertext is the in-order join of the buffered parts. */
  lemma CompletesOnLastPart(s: Submarine, timestamp: string, part: nat, total: nat, payload: string, atob: Base64Decoder)
    requires 1 <= part <= total
    requires timestamp in s.fragments && |s.fragments[timestamp].fragments| == total
    requires Pending(s.fragments[timestamp]) && s.fragments[timestamp].receivedCount == total - 1
    requires s.fragments[timestamp].fragments[part - 1].None?
    requires KeyTruthy(s.key) ==> s.key.value < KeyLimit
    ensures var v := Receive(s, timestamp, part, total, payload, atob).1;
      v.Some? && v.value.encrypted == JoinSlots(s.fragments[timestamp].fragments[part - 1 := Some(payload)])
  {
    FilledUpdate(s.fragments[timestamp].fragments, part - 1, payload);
  }

  /** The record after the packets of one message, whose parts are `parts`,
      arrive in the order of their part numbers in `arrivals`. */
  function Feed(s: Submarine, timestamp: string, parts: seq<string>, arrivals: seq<nat>,
                atob: Base64Decoder): (r: Submarine)
    requires timestamp !in s.fragments
    requires forall k :: 0 <= k < |arrivals| ==> 1 <= arrivals[k] <= |parts|
    requires KeyTruthy(s.key) ==> s.key.value < KeyLimit
    ensures r.key == s.key
    ensures timestamp in r.fragments ==> |r.fragments[timestamp].fragments| == |parts|
  {
    if arrivals == [] then s
    else
      var last := arrivals[|arrivals| - 1];
      Receive(Feed(s, timestamp, parts, arrivals[..|arrivals| - 1], atob), timestamp, last, |parts|, parts[last - 1], atob).0
  }

  /** Until a message completes, the handler's stored buffer is exactly the
      buffer `Deliver` describes for the same arrivals. */
  lemma {:induction false} FeedDelivers(s: Submarine, timestamp: string, parts: seq<string>, arrivals: seq<nat>,
                                        atob: Base64Decoder)
    requires timestamp !in s.fragments
    requires forall k :: 0 <= k < |arrivals| ==> 1 <= arrivals[k] <= |parts|
    requires KeyTruthy(s.key) ==> s.key.value < KeyLimit
    requires Deliver(parts, arrivals).receivedCount < |parts|
    ensures Buffer(Feed(s, timestamp, parts, arrivals, atob), timestamp, |parts|) == Deliver(parts, arrivals)
  {
    if arrivals != [] {
      var front := arrivals[..|arrivals| - 1];
      var last := arrivals[|arrivals| - 1];
      var a := Deliver(parts, arrivals);
      assert Deliver(parts, front).receivedCount <= a.receivedCount;
      FeedDelivers(s, timestamp, parts, front, atob);
      var t := Feed(s, timestamp, parts, front, atob);
      ReceiveCases(t, timestamp, last, |parts|, parts[last - 1], atob, a);
    }
  }

  /** The packet that brings the last missing part completes the message, in
      whatever order and with whatever repeats the parts came: its ciphertext is
      the in-order concatenation of the parts, and its buffer is dropped. */
  lemma FeedCompletes(s: Submarine, timestamp: string, parts: seq<string>, arrivals: seq<nat>,
                      atob: Base64Decoder)
    requires timestamp !in s.fragments
    requires forall k :: 0 <= k < |arrivals| ==> 1 <= arrivals[k] <= |parts|
    requires KeyTruthy(s.key) ==> s.key.value < KeyLimit
    requires |arrivals| > 0 && Deliver(parts, arrivals[..|arrivals| - 1]).receivedCount < |parts|
    requires forall p :: 1 <= p <= |parts| ==> p in arrivals
    ensures var last := arrivals[|arrivals| - 1];
      var (t, v) := Receive(Feed(s, timestamp, parts, arrivals[..|arrivals| - 1], atob),
                            timestamp, last, |parts|, parts[last - 1], atob);
      v == Some(MessageViews(Concat(parts), s.key, atob)) && v.value.encrypted == Concat(parts) &&
      timestamp !in t.fragments
  {
    var front := arrivals[..|arrivals| - 1];
    var last := arrivals[|arrivals| - 1];
    FeedDelivers(s, timestamp, parts, front, atob);
    ArrivalOrderIrrelevant(parts, arrivals);
    var t := Feed(s, timestamp, parts, front, atob);
    ReceiveCases(t, timestamp, last, |parts|, parts[last - 1], atob, Deliver(parts, arrivals));
  }

  /** A position update either changes nothing or moves one known submarine,
      whose trail grows by exactly the new position. */
  lemma UpdateMovesOne(subs: map<string, Submarine>, id: string, payload: string,
                       atob: Base64Decoder, parsePosition: PositionParser)
    requires id in subs && KeyTruthy(subs[id].key) ==> subs[id].key.value < KeyLimit
    ensures var after := AfterUpdate(subs, id, payload, atob, parsePosition);
      after.Keys == subs.Keys &&
      (forall other :: other in subs && other != id ==> after[other] == subs[other]) &&
      (id !in subs || !KeyTruthy(subs[id].key) ==> after == subs) &&
      (id in subs && after != subs ==>
         after[id].history == subs[id].history + [after[id].position] &&
         after[id].(position := subs[id].position, history := subs[id].history) == subs[id])
    ensures id in subs && KeyTruthy(subs[id].key) ==>
      var after := AfterUpdate(subs, id, payload, atob, parsePosition);
      match parsePosition(Decrypt(payload, subs[id].key.value, atob))
      case Some(p) => after[id] == subs[id].(position := p, history := subs[id].history + [p])
      case None => after == subs
  {
  }

  /** The two outcomes of a packet, spelled out for the handler's proof. */
  lemma ReceiveCases(s: Submarine, timestamp: string, part: nat, total: nat, payload: string,
                     atob: Base64Decoder, a: Assembly)
    requires 1 <= part <= total
    requires timestamp in s.fragments ==> |s.fragments[timestamp].fragments| == total
    requires KeyTruthy(s.key) ==> s.key.value < KeyLimit
    requires a == Place(Buffer(s, timestamp, total), part, payload)
    ensures a.receivedCount == total ==>
      var v := MessageViews(JoinSlots(a.fragments), s.key, atob);
      Receive(s, timestamp, part, total, payload, atob) ==
        (s.(packetsReceived := s.packetsReceived + 1, messagesReceived := s.messagesReceived + 1,
            fragments := s.fragments - {timestamp}, lastMessage := v.plain), Some(v))
    ensures a.receivedCount != total ==>
      Receive(s, timestamp, part, total, payload, atob) ==
        (s.(packetsReceived := s.packetsReceived + 1, fragments := s.fragments[timestamp := a]), None)
  {
  }

  /** A record that differs from a sound one only in its counters, last
      message and pending buffers is sound. */
  lemma SoundFrame(s: Submarine, t: Submarine, atob: Base64Decoder, parse: ProfileParser)
    requires Sound(s, atob, parse)
    requires t.history == s.history && t.position == s.position && t.state == s.state
    requires t.key == s.key && t.info == s.info && t.name == s.name && t.color == s.color
    requires t.difficulty == s.difficulty && t.encryptedPayload == s.encryptedPayload
    requires forall ts :: ts in t.fragments ==> Pending(t.fragments[ts])
    ensures Sound(t, atob, parse)
  {
  }

  /** A packet keeps a sound record sound. */
  lemma ReceiveSound(s: Submarine, timestamp: string, part: nat, total: nat, payload: string,
                     atob: Base64Decoder, parse: ProfileParser)
    requires 1 <= part <= total
    requires timestamp in s.fragments ==> |s.fragments[timestamp].fragments| == total
    requires Sound(s, atob, parse)
    ensures KeyTruthy(s.key) ==> s.key.value < KeyLimit
    ensures Sound(Receive(s, timestamp, part, total, payload, atob).0, atob, parse)
    ensures Receive(s, timestamp, part, total, payload, atob).0.id == s.id
  {
    var a := Place(Buffer(s, timestamp, total), part, payload);
    ReceiveCases(s, timestamp, part, total, payload, atob, a);
    var t := Receive(s, timestamp, part, total, payload, atob).0;
    if a.receivedCount != total {
      assert Consistent(a) && Pending(a);
      assert t.fragments == s.fragments[timestamp := a];
    } else {
      assert t.fragments == s.fragments - {timestamp};
    }
    SoundFrame(s, t, atob, parse);
  }

  /** Accepting the key at the cursor of a running search makes the record
      sound in state Decrypted. */
  lemma SolvedSound(s: Submarine, key: nat, info: Profile, atob: Base64Decoder, parse: ProfileParser)
    requires Sound(s, atob, parse) && s.state == Decrypting && key <= s.difficulty
    requires Search(s.encryptedPayload, s.difficulty, 0, atob, parse) == Search(s.encryptedPayload, s.difficulty, key, atob, parse)
    requires TryKey(s.encryptedPayload, key, atob, parse) == Some(info)
    ensures Sound(Solved(s, key, info), atob, parse)
  {
  }

  /** A cursor past the difficulty makes the record sound in state Failed. */
  lemma FailedSound(s: Submarine, key: nat, atob: Base64Decoder, parse: ProfileParser)
    requires Sound(s, atob, parse) && s.state == Decrypting && key > s.difficulty
    requires Search(s.encryptedPayload, s.difficulty, 0, atob, parse) == Search(s.encryptedPayload, s.difficulty, key, atob, parse)
    ensures Sound(s.(state := Failed), atob, parse)
  {
  }

  /** Every record is sound and filed under its own id. */
  ghost predicate RegistrySound(subs: map<string, Submarine>, atob: Base64Decoder, parse: ProfileParser)
  {
    forall id :: id in subs ==> subs[id].id == id && Sound(subs[id], atob, parse)
  }

  /** A running search belongs to a submarine in state Decrypting, every key
      before its cursor was rejected, and the cursor is at most one past the
      difficulty. */
  ghost predicate SearchSound(subs: map<string, Submarine>, search: Option<KeyCursor>,
                              atob: Base64Decoder, parse: ProfileParser)
  {
    search.Some? ==>
      var c := search.value;
      c.id in subs && subs[c.id].state == Decrypting && subs[c.id].difficulty < KeyLimit &&
      (c.key == 0 || c.key <= subs[c.id].difficulty + 1) &&
      Search(subs[c.id].encryptedPayload, subs[c.id].difficulty, 0, atob, parse) ==
      Search(subs[c.id].encryptedPayload, subs[c.id].difficulty, c.key, atob, parse)
  }

  /** Filing a sound record under its id keeps the registry sound. */
  lemma RegistrySoundUpdate(subs: map<string, Submarine>, id: string, s: Submarine,
                            atob: Base64Decoder, parse: ProfileParser)
    requires RegistrySound(subs, atob, parse) && s.id == id && Sound(s, atob, parse)
    ensures RegistrySound(subs[id := s], atob, parse)
  {
  }

  /** Replacing a record by one with the same state, payload and difficulty
      keeps a running search sound. */
  lemma SearchSoundUpdate(subs: map<string, Submarine>, search: Option<KeyCursor>, id: string, s: Submarine,
                          atob: Base64Decoder, parse: ProfileParser)
    requires SearchSound(subs, search, atob, parse) && id in subs
    requires s.state == subs[id].state && s.encryptedPayload == subs[id].encryptedPayload
    requires s.difficulty == subs[id].difficulty
    ensures SearchSound(subs[id := s], search, atob, parse)
  {
  }

  /** Rejecting the key at the cursor keeps the search sound at the next key. */
  lemma AdvanceSound(subs: map<string, Submarine>, c: KeyCursor, atob: Base64Decoder, parse: ProfileParser)
    requires SearchSound(subs, Some(c), atob, parse) && c.key <= subs[c.id].difficulty
    requires TryKey(subs[c.id].encryptedPayload, c.key, atob, parse).None?
    ensures SearchSound(subs, Some(KeyCursor(c.id, c.key + 1)), atob, parse)
  {
  }

  /** The record-level part of `handleCommunication` (public/app.js:213-245):
      count the packet, buffer the part, and on completion join, decrypt and
      decode the message. */
  method ReceivePacket(s: Submarine, timestamp: string, part: nat, total: nat, payload: string,
                       atob: Base64Decoder) returns (t: Submarine, views: Option<Views>)
    requires 1 <= part <= total
    requires timestamp in s.fragments ==> |s.fragments[timestamp].fragments| == total
    requires KeyTruthy(s.key) ==> s.key.value < KeyLimit
    ensures (t, views) == Receive(s, timestamp, part, total, payload, atob)
  {
    t := s;
    var buffer := if timestamp in t.fragments then t.fragments[timestamp] else NewAssembly(total);
    buffer := Place(buffer, part, payload);
    ReceiveCases(s, timestamp, part, total, payload, atob, buffer);
    if buffer.receivedCount == total {
      var joined := JoinSlots(buffer.fragments);
      var v;
      if KeyTruthy(t.key) {
        var morse := XorDecrypt(joined, t.key.value, atob);
        v := Views(MorseToText(morse), morse, joined);
      } else {
        v := Views(Placeholder, Placeholder, joined);
      }
      assert v == MessageViews(joined, s.key, atob);
      t := t.(packetsReceived := t.packetsReceived + 1, messagesReceived := t.messagesReceived + 1,
              fragments := t.fragments - {timestamp}, lastMessage := v.plain);
      views := Some(v);
    } else {
      t := t.(packetsReceived := t.packetsReceived + 1, fragments := t.fragments[timestamp := buffer]);
      views := None;
    }
  }

  /** A new record is sound. */
  lemma NewSubmarineSound(d: Detection, atob: Base64Decoder, parse: ProfileParser)
    ensures Sound(NewSubmarine(d), atob, parse) && NewSubmarine(d).id == d.id
  {
  }

  /** Moving a sound record keeps it sound: the trail still ends at the position. */
  lemma MovedSound(s: Submarine, p: Position, atob: Base64Decoder, parse: ProfileParser)
    requires Sound(s, atob, parse)
    ensures Sound(s.(position := p, history := s.history + [p]), atob, parse)
  {
  }

  /** Filing a record under a new id keeps a running search sound. */
  lemma SearchSoundAdd(subs: map<string, Submarine>, search: Option<KeyCursor>, id: string, s: Submarine,
                       atob: Base64Decoder, parse: ProfileParser)
    requires SearchSound(subs, search, atob, parse) && id !in subs
    ensures SearchSound(subs[id := s], search, atob, parse)
  {
  }

  /** The page state: the registry, and the key search currently running. */
  class Monitor {
    const atob: Base64Decoder
    const parseProfile: ProfileParser
    const parsePosition: PositionParser
    var subs: map<string, Submarine>
    var search: Option<KeyCursor>

    /** Every record is sound and filed under its own id, and a running search
        is sound. */
    ghost predicate Valid()
      reads this
    {
      RegistrySound(subs, atob, parseProfile) && SearchSound(subs, search, atob, parseProfile)
    }

    /** An empty registry and no search. */
    constructor(atob: Base64Decoder, parseProfile: ProfileParser, parsePosition: PositionParser)
      ensures Valid()
      ensures this.atob == atob && this.parseProfile == parseProfile && this.parsePosition == parsePosition
      ensures subs == map[] && search == None
    {
      this.atob := atob;
      this.parseProfile := parseProfile;
      this.parsePosition := parsePosition;
      subs := map[];
      search := None;
    }

    /** `handlePingResponse`: each detection with an unseen id is added, in
        order; a missing or empty list changes nothing. */
    method HandlePingResponse(detected: Option<seq<Detection>>)
      requires Valid()
      modifies this
      ensures Valid()
      ensures search == old(search)
      ensures subs == if detected.None? then old(subs) else Admit(old(subs), detected.value)
    {
      if detected.None? || |detected.value| == 0 {
        return;
      }
      var ds := detected.value;
      for i := 0 to |ds|
        invariant subs == Admit(old(subs), ds[..i])
        invariant Valid()
        invariant search == old(search)
      {
        assert ds[..i + 1][..i] == ds[..i];
        var d := ds[i];
        if d.id !in subs {
          NewSubmarineSound(d, atob, parseProfile);
          RegistrySoundUpdate(subs, d.id, NewSubmarine(d), atob, parseProfile);
          SearchSoundAdd(subs, search, d.id, NewSubmarine(d), atob, parseProfile);
          subs := subs[d.id := NewSubmarine(d)];
        }
      }
      assert ds[..|ds|] == ds;
    }

    /** `handleSubmarineUpdate`: with a truthy key the update is decrypted and,
        when it parses, the position is set and appended to the trail. */
    method HandleSubmarineUpdate(id: string, payload: string)
      requires Valid()
      modifies this
      ensures Valid()
      ensures search == old(search)
      ensures subs == AfterUpdate(old(subs), id, payload, atob, parsePosition)
    {
      if id !in subs || !KeyTruthy(subs[id].key) {
        return;
      }
      var s := subs[id];
      var decrypted := XorDecrypt(payload, s.key.value, atob);
      match parsePosition(decrypted)
      case Some(p) =>
        MovedSound(s, p, atob, parseProfile);
        RegistrySoundUpdate(subs, id, s.(position := p, history := s.history + [p]), atob, parseProfile);
        SearchSoundUpdate(subs, search, id, s.(position := p, history := s.history + [p]), atob, parseProfile);
        subs := subs[id := s.(position := p, history := s.history + [p])];
      case None =>
    }

    /** `handleCommunication`: an unknown id is ignored; otherwise the packet is
        counted, buffered, and a completed message is decrypted (with a truthy
        key) or shown as encrypted, and its views returned. */
    method HandleCommunication(id: string, timestamp: string, part: nat, total: nat, payload: string)
      returns (views: Option<Views>)
      requires Valid()
      requires 1 <= part <= total
      requires id in subs && timestamp in subs[id].fragments ==> |subs[id].fragments[timestamp].fragments| == total
      modifies this
      ensures Valid()
      ensures search == old(search)
      ensures id !in old(subs) ==> subs == old(subs) && views == None
      ensures id in old(subs) ==>
        var (s, v) := Receive(old(subs)[id], timestamp, part, total, payload, atob);
        subs == old(subs)[id := s] && views == v
    {
      if id !in subs {
        return None;
      }
      var s := subs[id];
      ReceiveSound(s, timestamp, part, total, payload, atob, parseProfile);
      s, views := ReceivePacket(s, timestamp, part, total, payload, atob);
      RegistrySoundUpdate(subs, id, s, atob, parseProfile);
      SearchSoundUpdate(subs, search, id, s, atob, parseProfile);
      subs := subs[id := s];
    }

    /** `startDecryption`: only a known submarine in state Encrypted starts a
        search, which begins at key 0. A search is started only when none is
        running (the modal covers the table while one runs). */
    method StartDecryption(id: string)
      requires Valid() && search.None?
      requires id in subs && subs[id].state == Encrypted ==> subs[id].difficulty < KeyLimit
      modifies this
      ensures Valid()
      ensures id !in old(subs) || old(subs)[id].state != Encrypted ==> subs == old(subs) && search == None
      ensures id in old(subs) && old(subs)[id].state == Encrypted ==>
        subs == old(subs)[id := old(subs)[id].(state := Decrypting)] && search == Some(KeyCursor(id, 0))
    {
      if id !in subs || subs[id].state != Encrypted {
        return;
      }
      subs := subs[id := subs[id].(state := Decrypting)];
      search := Some(KeyCursor(id, 0));
    }

    /** One tick of the decryption interval (public/app.js:302-335): past the
        difficulty the search fails; otherwise the current key is tried, and it
        either solves the submarine or the cursor moves to the next key. */
    method Tick() returns (r: TickResult)
      requires Valid() && search.Some?
      modifies this
      ensures Valid()
      ensures var c := old(search).value;
        var s := old(subs)[c.id];
        if c.key > s.difficulty then
          r == KeysExhausted && search == None && subs == old(subs)[c.id := s.(state := Failed)]
        else
          !r.KeysExhausted? && r.key == c.key && r.text == Decrypt(s.encryptedPayload, c.key, atob) &&
          match TryKey(s.encryptedPayload, c.key, atob, parseProfile)
          case Some(info) =>
            r == Accepted(c.key, r.text, info) && search == None && subs == old(subs)[c.id := Solved(s, c.key, info)]
          case None =>
            r == Rejected(c.key, r.text) && search == Some(KeyCursor(c.id, c.key + 1)) && subs == old(subs)
    {
      var c := search.value;
      var s := subs[c.id];
      if c.key > s.difficulty {
        FailedSound(s, c.key, atob, parseProfile);
        RegistrySoundUpdate(subs, c.id, s.(state := Failed), atob, parseProfile);
        search := None;
        subs := subs[c.id := s.(state := Failed)];
        return KeysExhausted;
      }
      var decrypted := XorDecrypt(s.encryptedPayload, c.key, atob);
      if StartsWithBrace(decrypted) {
        match parseProfile(decrypted)
        case Some(info) =>
          SolvedSound(s, c.key, info, atob, parseProfile);
          RegistrySoundUpdate(subs, c.id, Solved(s, c.key, info), atob, parseProfile);
          search := None;
          subs := subs[c.id := Solved(s, c.key, info)];
          return Accepted(c.key, decrypted, info);
        case None =>
      }
      AdvanceSound(subs, c, atob, parseProfile);
      search := Some(KeyCursor(c.id, c.key + 1));
      r := Rejected(c.key, decrypted);
    }

    /** The interval firing until it clears itself: the search ends in the state
        its outcome from key 0 dictates. */
    method RunSearch() returns (outcome: Outcome)
      requires Valid() && search.Some?
      modifies this
      ensures Valid() && search == None
      ensures var id := old(search).value.id;
        var s := old(subs)[id];
        outcome == Search(s.encryptedPayload, s.difficulty, 0, atob, parseProfile) &&
        subs == old(subs)[id := Concluded(s, outcome)]
    {
      var id := search.value.id;
      ghost var s := subs[id];
      outcome := Exhausted;
      while search.Some?
        invariant Valid()
        invariant search.Some? ==> search.value.id == id && subs == old(subs) && outcome == Exhausted
        invariant search.None? ==>
          outcome == Search(s.encryptedPayload, s.difficulty, 0, atob, parseProfile) &&
          subs == old(subs)[id := Concluded(s, outcome)]
        decreases if search.Some? then KeyLimit + 1 - search.value.key else 0
      {
        ghost var c := search.value;
        assert Search(s.encryptedPayload, s.difficulty, 0, atob, parseProfile) ==
               Search(s.encryptedPayload, s.difficulty, c.key, atob, parseProfile);
        var r := Tick();
        if r.Accepted? {
          outcome := Found(r.key, r.info);
        }
      }
    }

    /** Closing the modal clears the interval: the search stops where it is and
        the submarine stays in state Decrypting (public/app.js:63-72). */
    method CloseModal()
      requires Valid()
      modifies this
      ensures Valid()
      ensures subs == old(subs) && search == None
    {
      search := None;
    }

    /** `socket.onmessage`: a message goes to the handler for its type, and a
        message of any other type is ignored (public/app.js:93-106). */
    method Dispatch(msg: Message) returns (views: Option<Views>)
      requires Valid()
      requires msg.Communication? ==> 1 <= msg.part <= msg.total
      requires msg.Communication? && msg.id in subs && msg.timestamp in subs[msg.id].fragments ==>
        |subs[msg.id].fragments[msg.timestamp].fragments| == msg.total
      modifies this
      ensures Valid()
      ensures search == old(search)
      ensures !msg.Communication? ==> views == None
      ensures msg.Other? ==> subs == old(subs)
      ensures msg.PingResponse? ==>
        subs == if msg.detected.None? then old(subs) else Admit(old(subs), msg.detected.value)
      ensures msg.SubmarineUpdate? ==>
        subs == AfterUpdate(old(subs), msg.updateId, msg.updatePayload, atob, parsePosition)
      ensures msg.Communication? && msg.id in old(subs) ==>
        var (s, v) := Receive(old(subs)[msg.id], msg.timestamp, msg.part, msg.total, msg.payload, atob);
        subs == old(subs)[msg.id := s] && views == v
      ensures msg.Communication? && msg.id !in old(subs) ==> subs == old(subs) && views == None
    {
      views := None;
      match msg
      case PingResponse(detected) =>
        HandlePingResponse(detected);
      case SubmarineUpdate(id, payload) =>
        HandleSubmarineUpdate(id, payload);
      case Communication(id, timestamp, part, total, payload) =>
        views := HandleCommunication(id, timestamp, part, total, payload);
      case Other(_) =>
    }
  }
}
