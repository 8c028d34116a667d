/**
 * The hash-linked ledger: the record type, how a record commits to its
 * contents and to its predecessor, and the append step.
 *
 * The digest (SHA-256 rendered as lowercase hex in the system) is a
 * parameter `h`, so every property below holds whatever digest is used.
 */
module Chain {

  /** The digest applied to a record's hash input. */
  type Hasher = string -> string

  /**
   * One ledger entry. Every field is held in its string form, which is the
   * form both hashing and uid comparison work on.
   */
  datatype Record = Record(
    timestamp: string,
    name: string,
    uid: string,
    age: string,
    land: string,
    previousHash: string,
    hash: string)

  /** The chain, in insertion order; index 0 is the genesis record. */
  type Ledger = seq<Record>

  /** Why a request was refused. */
  datatype Invalid =
    | FieldsRequired              // a form field was empty
    | NoJsonData                  // the JSON body was absent or empty
    | MissingField(field: string) // a required JSON key was absent
    | UidRequired                 // the uid query parameter was absent or empty

  /** The core's error outcomes: a bad request, or nothing matching it. */
  datatype Failure = ValidationError(reason: Invalid) | NotFound

  /** The previous-hash sentinel of the genesis record: 64 '0' characters. */
  function ZeroHash(): (z: string)
    ensures |z| == 64
    ensures forall i :: 0 <= i < |z| ==> z[i] == '0'
  {
    seq(64, _ => '0')
  }

  /** The string a record's digest is taken over: fields in fixed order, no separators. */
  function HashInput(r: Record): string {
    r.timestamp + r.name + r.uid + r.age + r.land + r.previousHash
  }

  /**
   * Recompute a record's digest from its stored fields: the digest of timestamp,
   * name, uid, age, land and previous hash run together, in that order. The
   * stored `hash` is not an input, so overwriting it never changes the result.
   */
  function CalculateHash(h: Hasher, r: Record): (c: string)
    ensures c == h(r.timestamp + r.name + r.uid + r.age + r.land + r.previousHash)
    ensures forall v: string :: h(HashInput(r.(hash := v))) == c
  {
    h(HashInput(r))
  }

  /**
   * The link a new record receives: the stored hash of the current last record,
   * or the 64-character all-zero sentinel when the ledger is empty.
   */
  function PreviousHash(l: Ledger): (p: string)
    ensures |l| == 0 ==> p == ZeroHash() && |p| == 64
    ensures |l| > 0 ==> p == l[|l| - 1].hash
  {
    if |l| > 0 then l[|l| - 1].hash else ZeroHash()
  }

  /**
   * The chain invariants: every record's stored hash is its recomputed hash,
   * every non-genesis record links to its predecessor's stored hash, and the
   * genesis record links to the sentinel.
   */
  predicate ValidChain(h: Hasher, l: Ledger) {
    && (forall i :: 0 <= i < |l| ==> CalculateHash(h, l[i]) == l[i].hash)
    && (forall i :: 0 < i < |l| ==> l[i].previousHash == l[i - 1].hash)
    && (|l| > 0 ==> l[0].previousHash == ZeroHash())
  }

  /**
   * Build the record that an append to `l` creates: the link is taken from the
   * current last record, then the digest is computed over the finished fields.
   */
  function NewRecord(h: Hasher, l: Ledger, timestamp: string, name: string, uid: string,
                     age: string, land: string): (r: Record)
    ensures r.timestamp == timestamp && r.name == name && r.uid == uid
    ensures r.age == age && r.land == land
    ensures |l| == 0 ==> r.previousHash == ZeroHash()
    ensures |l| > 0 ==> r.previousHash == l[|l| - 1].hash
    ensures r.hash == h(timestamp + name + uid + age + land + r.previousHash)
    ensures CalculateHash(h, r) == r.hash
  {
    var unsealed := Record(timestamp, name, uid, age, land, PreviousHash(l), "");
    unsealed.(hash := CalculateHash(h, unsealed))
  }

  /** Append a freshly built record as the new last element. */
  function Append(h: Hasher, l: Ledger, timestamp: string, name: string, uid: string,
                  age: string, land: string): (l': Ledger)
    ensures |l'| == |l| + 1
    ensures l'[..|l|] == l
    ensures l'[|l|] == NewRecord(h, l, timestamp, name, uid, age, land)
    ensures ValidChain(h, l) ==> ValidChain(h, l')
  {
    l + [NewRecord(h, l, timestamp, name, uid, age, land)]
  }
}
