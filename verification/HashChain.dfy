/** The audit hash chain: building, verifying, repairing (audit/hash_chain_builder.py). */
module HashChain {
  import opened Basics
  import opened Hashing

  // ----- Records and their digests

  /** What a key of a record dictionary holds: nothing, JSON null, or a text. */
  datatype Field = Absent | Null | Text(text: string) {
    /** `record.get(key)` */
    function Get(): Field {
      if Absent? then Null else this
    }

    /** `record.get(key, default)` */
    function GetOr(default: string): Field {
      if Absent? then Text(default) else this
    }

    predicate Truthy() {
      Text? && text != ""
    }
  }

  /**
   * A record as a value. `payload` is the canonical JSON text of every key but the
   * three below; `flag` is the `_integrity_verified` key a failed replay writes.
   */
  datatype Rec = Rec(payload: string, flag: Option<bool>, previous: Field, hash: Field)

  /** What is serialised and hashed: the record without its hash, and the hash before it. */
  datatype Content = Content(payload: string, flag: Option<bool>, link: Field, previous: Field)

  /** The two functions whose internals stay unknown. */
  datatype Crypto = Crypto(sha: Sha, json: Content -> string)

  const GENESIS_SEED := "AUDIT_TRAIL_GENESIS_2025"

  function Genesis(c: Crypto): string {
    c.sha(GENESIS_SEED)
  }

  /** Serialisation loses nothing, and no serialised record reads like the genesis seed. */
  ghost predicate Faithful(c: Crypto) {
    && (forall x, y :: c.json(x) == c.json(y) ==> x == y)
    && (forall x :: c.json(x) != GENESIS_SEED)
  }

  function RecordText(c: Crypto, r: Rec, previous: Field): string {
    c.json(Content(r.payload, r.flag, r.previous, previous))
  }

  function RecordHash(c: Crypto, r: Rec, previous: Field): string {
    c.sha(RecordText(c, r, previous))
  }

  /** The hashed text is that of the record without its hash, and the hash before it, and of nothing else. */
  lemma TextBinds(c: Crypto, r: Rec, previous: Field, x: Content)
    requires Faithful(c)
    ensures RecordText(c, r, previous) == c.json(x) <==>
            x.payload == r.payload && x.flag == r.flag && x.link == r.previous && x.previous == previous
  {
  }

  /** Every text hashed while verifying `s`. */
  ghost function Texts(c: Crypto, s: seq<Rec>): set<string> {
    set i | 0 <= i < |s| :: RecordText(c, s[i], s[i].previous.Get())
  }

  // ----- What verification accepts

  /** The hash that record `i` must name as its predecessor's. */
  function PriorHash(c: Crypto, s: seq<Rec>, i: nat): Field
    requires i <= |s|
  {
    if i == 0 then Text(Genesis(c)) else s[i - 1].hash.Get()
  }

  predicate LinkOk(c: Crypto, s: seq<Rec>, i: nat)
    requires i < |s|
  {
    s[i].previous.Get() == PriorHash(c, s, i)
  }

  predicate HashOk(c: Crypto, s: seq<Rec>, i: nat)
    requires i < |s|
  {
    s[i].hash.Get() == Text(RecordHash(c, s[i], s[i].previous.Get()))
  }

  predicate OkAt(c: Crypto, s: seq<Rec>, i: nat)
    requires i < |s|
  {
    LinkOk(c, s, i) && HashOk(c, s, i)
  }

  predicate Accepted(c: Crypto, s: seq<Rec>) {
    forall i: nat :: i < |s| ==> OkAt(c, s, i)
  }

  /** The index of the first record that fails, or the length when none does. */
  function FirstBroken(c: Crypto, s: seq<Rec>, from: nat := 0): (k: nat)
    requires from <= |s|
    ensures from <= k <= |s|
    ensures forall i: nat :: from <= i < k ==> OkAt(c, s, i)
    ensures k < |s| ==> !OkAt(c, s, k)
    decreases |s| - from
  {
    if from == |s| || !OkAt(c, s, from) then from else FirstBroken(c, s, from + 1)
  }

  lemma OkAtOfPrefix(c: Crypto, s: seq<Rec>, j: nat, i: nat)
    requires i < j <= |s|
    ensures OkAt(c, s[..j], i) <==> OkAt(c, s, i)
  {
  }

  /** Two lists that agree up to and including index `i` agree on whether `i` is fine. */
  lemma OkAtAgrees(c: Crypto, s: seq<Rec>, t: seq<Rec>, i: nat)
    requires i < |s| && i < |t| && s[i] == t[i]
    requires i > 0 ==> s[i - 1] == t[i - 1]
    ensures OkAt(c, s, i) <==> OkAt(c, t, i)
  {
  }

  /** The reported index is the length of the longest prefix that is itself accepted. */
  lemma LongestAcceptedPrefix(c: Crypto, s: seq<Rec>, j: nat)
    requires j <= |s|
    ensures Accepted(c, s[..j]) <==> j <= FirstBroken(c, s)
  {
    var k := FirstBroken(c, s);
    forall i: nat | i < j
      ensures OkAt(c, s[..j], i) <==> OkAt(c, s, i)
    {
      OkAtOfPrefix(c, s, j, i);
    }
    if k < j {
      assert !OkAt(c, s[..j], k);
    }
  }

  lemma AcceptedPrefix(c: Crypto, s: seq<Rec>, j: nat)
    requires Accepted(c, s) && j <= |s|
    ensures Accepted(c, s[..j])
  {
    forall i: nat | i < j
      ensures OkAt(c, s[..j], i)
    {
      assert OkAt(c, s, i);
    }
  }

  lemma AcceptedMeansUnbroken(c: Crypto, s: seq<Rec>)
    ensures Accepted(c, s) <==> FirstBroken(c, s) == |s|
  {
  }

  // ----- Tamper evidence

  /** `texts` holds all that verifying `s` hashes, and the digest has no collision on it. */
  ghost predicate Secure(c: Crypto, s: seq<Rec>, texts: set<string>) {
    && Faithful(c)
    && Texts(c, s) <= texts
    && GENESIS_SEED in texts
    && CollisionFreeOn(c.sha, texts)
  }

  lemma SecurePrefix(c: Crypto, s: seq<Rec>, texts: set<string>, j: nat)
    requires Secure(c, s, texts) && j <= |s|
    ensures Secure(c, s[..j], texts)
  {
    forall x | x in Texts(c, s[..j])
      ensures x in texts
    {
      var i :| 0 <= i < j && x == RecordText(c, s[..j][i], s[..j][i].previous.Get());
      assert x == RecordText(c, s[i], s[i].previous.Get());
    }
  }

  /** A digest determines the whole record it was computed from. */
  lemma SameDigestSameRecord(c: Crypto, s: seq<Rec>, i: nat, t: seq<Rec>, j: nat, texts: set<string>)
    requires Secure(c, s, texts) && Secure(c, t, texts)
    requires i < |s| && j < |t| && OkAt(c, s, i) && OkAt(c, t, j)
    requires s[i].hash == t[j].hash
    ensures s[i].payload == t[j].payload && s[i].flag == t[j].flag
    ensures s[i].previous == t[j].previous
  {
    var a := RecordText(c, s[i], s[i].previous.Get());
    var b := RecordText(c, t[j], t[j].previous.Get());
    assert a in Texts(c, s) && b in Texts(c, t);
    assert c.sha(a) == c.sha(b);
  }

  lemma NoRecordHashesToGenesis(c: Crypto, s: seq<Rec>, i: nat, texts: set<string>)
    requires Secure(c, s, texts) && i < |s| && HashOk(c, s, i)
    ensures s[i].hash != Text(Genesis(c))
  {
    assert RecordText(c, s[i], s[i].previous.Get()) in Texts(c, s);
  }

  /** The first record names the genesis hash, and no later one does. */
  lemma OnlyFirstNamesGenesis(c: Crypto, s: seq<Rec>, i: nat, texts: set<string>)
    requires Secure(c, s, texts) && Accepted(c, s) && i < |s|
    ensures s[i].previous.Get() == Text(Genesis(c)) <==> i == 0
  {
    assert OkAt(c, s, i);
    if i > 0 {
      assert OkAt(c, s, i - 1);
      NoRecordHashesToGenesis(c, s, i - 1, texts);
    }
  }

  /**
   * The last hash binds the whole history: accepted lists of any lengths that end in the
   * same hash are the same list, field by field.
   */
  lemma {:induction false} TamperEvidence(c: Crypto, s: seq<Rec>, t: seq<Rec>, texts: set<string>)
    requires Secure(c, s, texts) && Secure(c, t, texts)
    requires s != [] && t != [] && Accepted(c, s) && Accepted(c, t)
    requires s[|s| - 1].hash == t[|t| - 1].hash
    ensures s == t
    decreases |s|
  {
    var m, n := |s| - 1, |t| - 1;
    assert OkAt(c, s, m) && OkAt(c, t, n);
    SameDigestSameRecord(c, s, m, t, n, texts);
    assert m == 0 <==> n == 0 by {
      OnlyFirstNamesGenesis(c, s, m, texts);
      OnlyFirstNamesGenesis(c, t, n, texts);
    }
    if m > 0 {
      assert OkAt(c, s, m - 1) && OkAt(c, t, n - 1);
      AcceptedPrefix(c, s, m);
      AcceptedPrefix(c, t, n);
      SecurePrefix(c, s, texts, m);
      SecurePrefix(c, t, texts, n);
      TamperEvidence(c, s[..m], t[..n], texts);
    }
    assert s == s[..m] + [s[m]] && t == t[..n] + [t[n]];
  }
}
