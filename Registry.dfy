/** The submarine records kept by the page (public/app.js:146-161) and the way a
    ping response adds them (public/app.js:136-144). */
module Registry {
  import opened Wrappers
  import opened Fragments
  import opened KeySearch

  /** A latitude/longitude pair; the model never computes with it. */
  datatype Position = Position(lat: real, long: real)

  /** 'Encriptado', 'Descifrando...', 'Desencriptado', 'Fallido'. */
  datatype SubState = Encrypted | Decrypting | Decrypted | Failed

  /** One entry of `detected_submarines`. */
  datatype Detection = Detection(id: string, position: Position, payload: string, difficulty: int)

  /** A submarine record. `key`, `info` and `color` are absent until the key is
      found; `fragments` maps a message timestamp to its reassembly buffer. */
  datatype Submarine = Submarine(
    id: string,
    name: string,
    state: SubState,
    position: Position,
    encryptedPayload: string,
    difficulty: int,
    history: seq<Position>,
    fragments: map<string, Assembly>,
    messagesReceived: nat,
    packetsReceived: nat,
    lastMessage: string,
    key: Option<nat>,
    info: Option<Profile>,
    color: Option<string>)

  /** The name shown before decryption. */
  const UnknownName := "Desconocido"
  /** `lastMessage` before any message completes. */
  const NoMessage := "N/A"

  /** `addNewSubmarine`: the record built from a detection. */
  function NewSubmarine(d: Detection): Submarine
  {
    Submarine(d.id, UnknownName, Encrypted, d.position, d.payload, d.difficulty,
              [d.position], map[], 0, 0, NoMessage, None, None, None)
  }

  /** The registry after the detections are processed in order: an id not yet
      present gets a new record, a known id is skipped. */
  function Admit(subs: map<string, Submarine>, ds: seq<Detection>): map<string, Submarine>
  {
    if ds == [] then subs
    else
      var m := Admit(subs, ds[..|ds| - 1]);
      var d := ds[|ds| - 1];
      if d.id in m then m else m[d.id := NewSubmarine(d)]
  }

  /** The ids present after a ping: the old ones plus every detected one. */
  lemma {:induction false} AdmitKeys(subs: map<string, Submarine>, ds: seq<Detection>)
    ensures Admit(subs, ds).Keys == subs.Keys + set d | d in ds :: d.id
  {
    if ds != [] {
      var front := ds[..|ds| - 1];
      AdmitKeys(subs, front);
      assert ds == front + [ds[|ds| - 1]];
      assert (set d | d in ds :: d.id) == (set d | d in front :: d.id) + {ds[|ds| - 1].id};
    }
  }

  /** A record already present is left exactly as it was: history, counters,
      state and all. */
  lemma {:induction false} AdmitKeepsExisting(subs: map<string, Submarine>, ds: seq<Detection>, id: string)
    requires id in subs
    ensures id in Admit(subs, ds) && Admit(subs, ds)[id] == subs[id]
  {
    if ds != [] {
      AdmitKeepsExisting(subs, ds[..|ds| - 1], id);
    }
  }

  /** A new id gets the record built from its first detection, whose history is
      the single detected position. */
  lemma {:induction false} AdmitFirstDetection(subs: map<string, Submarine>, ds: seq<Detection>, k: nat)
    requires k < |ds| && ds[k].id !in subs
    requires forall j :: 0 <= j < k ==> ds[j].id != ds[k].id
    ensures ds[k].id in Admit(subs, ds)
    ensures Admit(subs, ds)[ds[k].id] == NewSubmarine(ds[k])
    ensures Admit(subs, ds)[ds[k].id].history == [ds[k].position]
  {
    var front := ds[..|ds| - 1];
    if k == |ds| - 1 {
      AdmitKeys(subs, front);
      assert ds[k].id !in Admit(subs, front);
    } else {
      AdmitFirstDetection(subs, front, k);
    }
  }
}
