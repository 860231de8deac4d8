/** References to certificate contexts, the loop that collects the user's certificates, and the signing call. */
module Capi {
  import opened Bytes
  import opened Wrappers

  type Context = nat

  datatype KeyKind = RSA | ECDSA | OtherKind

  datatype PublicKey = PublicKey(kind: KeyKind, format: string, blob: seq<byte>)

  /** A parsed certificate: `allowed` is the verdict on its extended key usage, `key` its SSH public key, if any. */
  datatype X509 = X509(serial: string, commonName: string, allowed: bool, key: Option<PublicKey>)

  /** A certificate object owns one reference to its context, told apart from other references by `handle`. */
  datatype Certificate = Certificate(handle: nat, context: Context, x509: X509)

  /** The references handed out by duplication: those still live, and those freed. */
  class ContextTable {
    var live: map<nat, Context>
    ghost var freed: set<nat>
    var next: nat
    const freeFails: set<Context>

    /** Every reference ever handed out is either live or freed, never both. */
    ghost predicate Valid()
      reads this
    {
      && live.Keys !! freed
      && forall h :: h in live || h in freed <==> 0 <= h < next
    }

    constructor (freeFails: set<Context>)
      ensures Valid() && live == map[] && next == 0
    {
      live, freed, next := map[], {}, 0;
      this.freeFails := freeFails;
    }

    method Duplicate(context: Context) returns (handle: nat)
      requires Valid()
      modifies this
      ensures Valid() && handle == old(next) && next == old(next) + 1
      ensures live == old(live)[handle := context] && freed == old(freed)
    {
      handle := next;
      live, next := live[next := context], next + 1;
    }

    /** Only a live reference may be freed. */
    method Free(cert: Certificate) returns (ok: bool)
      requires Valid() && cert.handle in live && live[cert.handle] == cert.context
      modifies this`live, this`freed
      ensures Valid() && live == old(live) - {cert.handle} && freed == old(freed) + {cert.handle}
      ensures ok == (cert.context !in freeFails)
    {
      live, freed := live - {cert.handle}, freed + {cert.handle};
      ok := cert.context !in freeFails;
    }

    /** Only a live reference may be duplicated. */
    method Copy(cert: Certificate, succeeds: bool) returns (copy: Option<Certificate>)
      requires Valid() && cert.handle in live && live[cert.handle] == cert.context
      modifies this
      ensures Valid() && freed == old(freed)
      ensures copy.Some? <==> succeeds
      ensures succeeds ==>
                && copy.value == Certificate(old(next), cert.context, cert.x509)
                && live == old(live)[old(next) := cert.context] && next == old(next) + 1
      ensures !succeeds ==> live == old(live) && next == old(next)
    {
      if !succeeds {
        return None;
      }
      var handle := Duplicate(cert.context);
      copy := Some(Certificate(handle, cert.context, cert.x509));
    }
  }

  // ---------------------------------------------------------------- collecting certificates

  /** What one call of the enumeration yields, and what becomes of the context it found. */
  datatype StoreEntry =
    | Found(context: Context, hasKey: bool, parsed: Option<X509>, duplicates: bool)
    | NotFound
    | NoMore
    | EnumerationFailed

  datatype Store = Store(opens: bool, entries: seq<StoreEntry>)

  predicate Collectable(entry: StoreEntry) {
    entry.Found? && entry.hasKey && entry.parsed.Some? && entry.duplicates
  }

  predicate AllCollectable(entries: seq<StoreEntry>) {
    forall i :: 0 <= i < |entries| ==> Collectable(entries[i])
  }

  /** The entries a reference is taken to, up to the end of the enumeration or its failure. */
  function Collected(entries: seq<StoreEntry>): (r: seq<StoreEntry>)
    ensures AllCollectable(r)
  {
    if entries == [] || !entries[0].Found? then []
    else (if Collectable(entries[0]) then [entries[0]] else []) + Collected(entries[1..])
  }

  /** A reference is taken to a store entry that has a key, parses, and whose context can be duplicated. */
  lemma CollectedOne(entry: StoreEntry, after: seq<StoreEntry>)
    ensures Collected([]) == []
    ensures Collected([entry])
         == if entry.Found? && entry.hasKey && entry.parsed.Some? && entry.duplicates then [entry] else []
    ensures entry.Found? ==> Collected([entry] + after) == Collected([entry]) + Collected(after)
    ensures !entry.Found? ==> Collected([entry] + after) == []
  {
    assert [entry][1..] == [] && ([entry] + after)[1..] == after;
  }

  /** The references are taken in order, up to the first entry that is no certificate. */
  lemma {:induction false} CollectedInOrder(first: seq<StoreEntry>, after: seq<StoreEntry>)
    requires forall i :: 0 <= i < |first| ==> first[i].Found?
    ensures Collected(first + after) == Collected(first) + Collected(after)
    decreases first
  {
    if first == [] {
      assert first + after == after;
    } else {
      var entry, rest := first[0], first[1..];
      CollectedInOrder(rest, after);
      CollectedOne(entry, rest);
      CollectedOne(entry, rest + after);
      assert [entry] + rest == first && [entry] + (rest + after) == first + after;
      assert Collected([entry]) + (Collected(rest) + Collected(after))
          == Collected([entry]) + Collected(rest) + Collected(after);
    }
  }

  /** The enumeration runs to its end instead of failing half-way. */
  predicate Completes(entries: seq<StoreEntry>) {
    entries == [] || (entries[0].Found? && Completes(entries[1..])) || entries[0] == NotFound || entries[0] == NoMore
  }

  /** It fails half-way exactly if all entries before some failure are certificates. */
  lemma {:induction false} CompletesIff(entries: seq<StoreEntry>)
    ensures !Completes(entries) <==>
            exists n: nat :: n < |entries| && entries[n] == EnumerationFailed
                             && forall i :: 0 <= i < n ==> entries[i].Found?
  {
    if entries != [] {
      var rest := entries[1..];
      CompletesIff(rest);
      if !Completes(entries) && entries[0].Found? {
        var n: nat :| n < |rest| && rest[n] == EnumerationFailed && forall i :: 0 <= i < n ==> rest[i].Found?;
        assert entries[n + 1] == EnumerationFailed;
        forall i | 0 <= i < n + 1 ensures entries[i].Found? {
          assert i > 0 ==> entries[i] == rest[i - 1];
        }
      }
      forall n: nat | n < |entries| && entries[n] == EnumerationFailed && forall i :: 0 <= i < n ==> entries[i].Found?
        ensures !Completes(entries)
      {
        if n > 0 {
          assert rest[n - 1] == EnumerationFailed;
          assert forall i :: 0 <= i < n - 1 ==> rest[i] == entries[i + 1];
        }
      }
    }
  }

  predicate Loads(store: Store) {
    store.opens && Completes(store.entries)
  }

  /** References that a load takes and then drops without freeing: all it had collected when enumeration failed. */
  function Dropped(store: Store): nat {
    if store.opens && !Completes(store.entries) then |Collected(store.entries)| else 0
  }

  /** The certificate objects for the collected entries, their references numbered from `first`. */
  function CertsFor(entries: seq<StoreEntry>, first: nat): (certs: seq<Certificate>)
    requires AllCollectable(entries)
    ensures |certs| == |entries|
  {
    seq(|entries|, i requires 0 <= i < |entries| =>
      Certificate(first + i, entries[i].context, entries[i].parsed.value))
  }

  /** Certificate j is a new reference to the context of entry j, with what parsing made of that entry. */
  lemma CertsForAre(entries: seq<StoreEntry>, first: nat, j: nat)
    requires AllCollectable(entries) && j < |entries|
    ensures var cert := CertsFor(entries, first)[j];
            cert.handle == first + j && entries[j] == Found(cert.context, true, Some(cert.x509), true)
  {
  }

  /** The references numbered from `first` on were added, one for each of these certificate objects. */
  ghost predicate Extends(before: map<nat, Context>, after: map<nat, Context>, certs: seq<Certificate>, first: nat) {
    && (forall h: nat :: h in after <==> h in before || first <= h < first + |certs|)
    && (forall h: nat :: h in before ==> after[h] == before[h])
    && (forall j :: 0 <= j < |certs| ==>
          certs[j].handle == first + j && first + j in after && after[first + j] == certs[j].context)
  }

  lemma ExtendsByOne(before: map<nat, Context>, mid: map<nat, Context>, certs: seq<Certificate>, first: nat,
                     cert: Certificate)
    requires Extends(before, mid, certs, first) && cert.handle == first + |certs|
    requires forall h: nat :: h in before ==> h < first
    ensures Extends(before, mid[cert.handle := cert.context], certs + [cert], first)
  {
  }

  lemma CertsForAppend(entries: seq<StoreEntry>, first: nat, entry: StoreEntry)
    requires AllCollectable(entries) && Collectable(entry)
    ensures AllCollectable(entries + [entry])
    ensures CertsFor(entries + [entry], first)
         == CertsFor(entries, first) + [Certificate(first + |entries|, entry.context, entry.parsed.value)]
  {
  }

  lemma CollectedStep(entries: seq<StoreEntry>, i: nat)
    requires i < |entries| && entries[i].Found?
    ensures Collected(entries[i..])
         == (if Collectable(entries[i]) then [entries[i]] else []) + Collected(entries[i + 1..])
    ensures Completes(entries[i..]) <==> Completes(entries[i + 1..])
  {
    assert entries[i..][0] == entries[i] && entries[i..][1..] == entries[i + 1..];
  }

  /** The enumeration loop: references for the entries up to the first that is not a certificate. */
  method Enumerate(table: ContextTable, entries: seq<StoreEntry>) returns (found: seq<Certificate>, rest: nat)
    requires table.Valid()
    modifies table
    ensures table.Valid() && table.freed == old(table.freed) && table.next == old(table.next) + |found|
    ensures found == CertsFor(Collected(entries), old(table.next))
    ensures Extends(old(table.live), table.live, found, old(table.next))
    ensures rest <= |entries| && (Completes(entries) <==> rest == |entries| || entries[rest] != EnumerationFailed)
  {
    found, rest := [], 0;
    ghost var taken: seq<StoreEntry> := [];
    assert entries[0..] == entries;
    while rest < |entries| && entries[rest].Found?
      invariant 0 <= rest <= |entries|
      invariant table.Valid() && table.freed == old(table.freed) && table.next == old(table.next) + |found|
      invariant AllCollectable(taken) && Collected(entries) == taken + Collected(entries[rest..])
      invariant Completes(entries) <==> Completes(entries[rest..])
      invariant found == CertsFor(taken, old(table.next))
      invariant Extends(old(table.live), table.live, found, old(table.next))
    {
      var entry := entries[rest];
      CollectedStep(entries, rest);
      rest := rest + 1;
      if entry.hasKey && entry.parsed.Some? && entry.duplicates {
        ghost var mid := table.live;
        var handle := table.Duplicate(entry.context);
        var cert := Certificate(handle, entry.context, entry.parsed.value);
        CertsForAppend(taken, old(table.next), entry);
        ExtendsByOne(old(table.live), mid, found, old(table.next), cert);
        found := found + [cert];
        taken := taken + [entry];
      }
    }
    assert Collected(entries) == taken;
  }

  /** A load that succeeds owns one new reference per certificate; one that fails half-way has dropped them. */
  method LoadUserCerts(table: ContextTable, store: Store) returns (certs: Option<seq<Certificate>>)
    requires table.Valid()
    modifies table
    ensures table.Valid() && table.freed == old(table.freed)
    ensures certs.Some? <==> Loads(store)
    ensures certs.Some? ==>
              && certs.value == CertsFor(Collected(store.entries), old(table.next))
              && Extends(old(table.live), table.live, certs.value, old(table.next))
              && table.next == old(table.next) + |certs.value|
    ensures certs.None? ==>
              && table.next == old(table.next) + Dropped(store)
              && (forall h: nat :: h in table.live <==> h in old(table.live) || old(table.next) <= h < table.next)
              && (forall h: nat :: h in old(table.live) ==> table.live[h] == old(table.live)[h])
  {
    if !store.opens {
      return None;
    }
    var found, rest := Enumerate(table, store.entries);
    if rest < |store.entries| && store.entries[rest] == EnumerationFailed {
      return None;  // what was duplicated so far is dropped
    }
    return Some(found);
  }

  // ---------------------------------------------------------------- signing with a certificate's key

  datatype KeyOp = AcquireKey | SignMessage | ResetPIN(key: nat) | FreeKey(key: nat)

  /** What the key provider answers: a key and whether the caller must free it, then the message signature. */
  datatype Provider = Provider(key: Option<nat>, callerFrees: bool, signature: Option<seq<byte>>)

  /**
   Signing needs a live reference. There is one signing attempt, after the key is acquired. With PIN caching
   off, an acquired key has its PIN reset once, after the signing attempt and whether or not that succeeded,
   and is freed exactly when the caller owns it, after the reset; no other key is touched.
   */
  method Sign(table: ContextTable, cert: Certificate, disablePINCache: bool, p: Provider)
    returns (signature: Option<seq<byte>>, trace: seq<KeyOp>)
    requires cert.handle in table.live && table.live[cert.handle] == cert.context
    ensures signature == if disablePINCache && p.key.None? then None else p.signature
    ensures trace == (if disablePINCache then [AcquireKey] else [])
                     + (if disablePINCache && p.key.None? then [] else [SignMessage])
                     + (if disablePINCache && p.key.Some? && p.key.value != 0 then [ResetPIN(p.key.value)] else [])
                     + (if disablePINCache && p.key.Some? && p.key.value != 0 && p.callerFrees
                        then [FreeKey(p.key.value)] else [])
  {
    trace := [];
    var key, freeKey := 0, false;
    if disablePINCache {
      trace := trace + [AcquireKey];
      if p.key.None? {
        return None, trace;
      }
      key, freeKey := p.key.value, p.callerFrees;
    }
    trace := trace + [SignMessage];
    signature := p.signature;
    if disablePINCache && key != 0 {
      trace := trace + [ResetPIN(key)];
      if freeKey {
        trace := trace + [FreeKey(key)];
      }
    }
  }
}
