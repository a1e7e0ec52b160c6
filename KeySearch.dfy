/** The brute-force key recovery of `startDecryption` (public/app.js:301-335),
    as a specification: keys 0, 1, 2, ... are tried in order, a key is accepted
    when its decryption starts with '{' and parses as a profile, and the search
    fails once the key passes the difficulty. `JSON.parse` is a parameter. */
module KeySearch {
  import opened Wrappers
  import opened Cipher

  /** The decrypted profile: the fields the page reads from it. */
  datatype Profile = Profile(name: string, country: string, captain: string, kind: string, color: Option<string>)

  /** What `JSON.parse` stands for here: a profile, or None where it would throw. */
  type ProfileParser = string -> Option<Profile>

  /** `decrypted.startsWith('{')`. */
  predicate StartsWithBrace(text: string)
  {
    |text| > 0 && text[0] == '{'
  }

  /** The profile a key yields: only a decryption that starts with '{' is
      handed to the parser (public/app.js:317-319). */
  function TryKey(payload: string, key: nat, atob: Base64Decoder, parse: ProfileParser): (r: Option<Profile>)
    requires key < KeyLimit
    ensures r.Some? <==> StartsWithBrace(Decrypt(payload, key, atob)) && parse(Decrypt(payload, key, atob)).Some?
    ensures r.Some? ==> r == parse(Decrypt(payload, key, atob))
  {
    var text := Decrypt(payload, key, atob);
    if StartsWithBrace(text) then parse(text) else None
  }

  /** How a search ends. */
  datatype Outcome = Found(key: nat, info: Profile) | Exhausted

  /** The outcome of the search when it is at key `from`. */
  function Search(payload: string, difficulty: int, from: nat, atob: Base64Decoder, parse: ProfileParser): Outcome
    requires difficulty < KeyLimit
    decreases KeyLimit - from
  {
    if from > difficulty then Exhausted
    else match TryKey(payload, from, atob, parse)
      case Some(info) => Found(from, info)
      case None => Search(payload, difficulty, from + 1, atob, parse)
  }

  /** A found key is the first accepted key from `from` on, and it is within
      the difficulty. */
  lemma {:induction false} SearchFindsFirst(payload: string, difficulty: int, from: nat, atob: Base64Decoder, parse: ProfileParser)
    requires difficulty < KeyLimit
    requires Search(payload, difficulty, from, atob, parse).Found?
    ensures var Found(k, info) := Search(payload, difficulty, from, atob, parse);
      from <= k <= difficulty && TryKey(payload, k, atob, parse) == Some(info) &&
      forall j :: from <= j < k ==> TryKey(payload, j, atob, parse).None?
    decreases KeyLimit - from
  {
    if TryKey(payload, from, atob, parse).None? {
      SearchFindsFirst(payload, difficulty, from + 1, atob, parse);
    }
  }

  /** A failed search has tried, and rejected, every key from `from` up to the
      difficulty. */
  lemma {:induction false} SearchExhaustsRange(payload: string, difficulty: int, from: nat, atob: Base64Decoder, parse: ProfileParser)
    requires difficulty < KeyLimit
    requires Search(payload, difficulty, from, atob, parse).Exhausted?
    ensures forall j :: from <= j <= difficulty ==> TryKey(payload, j, atob, parse).None?
    decreases KeyLimit - from
  {
    if from <= difficulty {
      SearchExhaustsRange(payload, difficulty, from + 1, atob, parse);
    }
  }

  /** Conversely, the search succeeds whenever some key within the difficulty
      is accepted. */
  lemma SearchComplete(payload: string, difficulty: int, key: nat, atob: Base64Decoder, parse: ProfileParser)
    requires difficulty < KeyLimit && key <= difficulty
    requires TryKey(payload, key, atob, parse).Some?
    ensures Search(payload, difficulty, 0, atob, parse).Found?
    ensures Search(payload, difficulty, 0, atob, parse).key <= key
  {
    if Search(payload, difficulty, 0, atob, parse).Exhausted? {
      SearchExhaustsRange(payload, difficulty, 0, atob, parse);
      assert false;
    }
    SearchFindsFirst(payload, difficulty, 0, atob, parse);
  }

  /** Rejected keys are skipped: the search from 0 ends as the search from any
      cursor reached by rejecting every key before it. */
  lemma {:induction false} SearchSkipsRejected(payload: string, difficulty: int, cursor: nat, atob: Base64Decoder, parse: ProfileParser)
    requires difficulty < KeyLimit && cursor <= difficulty + 1
    requires forall j :: 0 <= j < cursor ==> TryKey(payload, j, atob, parse).None?
    ensures Search(payload, difficulty, 0, atob, parse) == Search(payload, difficulty, cursor, atob, parse)
  {
    if cursor > 0 {
      SearchSkipsRejected(payload, difficulty, cursor - 1, atob, parse);
    }
  }
}
