/** The agent over the user's certificate store: a cached list of keys that owns certificate references. */
module CapiAgent {
  import opened Bytes
  import opened Wrappers
  import opened Capi

  // ---------------------------------------------------------------- keys and their signers

  datatype SshCert = SshCert(format: string, blob: seq<byte>, keyBlob: seq<byte>, keyId: string)

  /** A signer over a store certificate, or an OpenSSH certificate wrapped around one. */
  datatype Signer =
    | Direct(cert: Certificate, pub: PublicKey)
    | Paired(sshCert: SshCert, inner: Signer)

  /** The certificate object a signer hands to the signing call in the end. */
  function Root(signer: Signer): Certificate {
    match signer
    case Direct(cert, _) => cert
    case Paired(_, inner) => Root(inner)
  }

  /** Only RSA signers, bare or wrapped, can choose a signature algorithm. */
  predicate ChoosesAlgorithm(signer: Signer) {
    match signer
    case Direct(_, pub) => pub.kind == RSA
    case Paired(_, inner) => ChoosesAlgorithm(inner)
  }

  datatype SshKey = SshKey(cert: Certificate, signer: Signer, comment: string)

  datatype Identity = Identity(format: string, blob: seq<byte>, comment: string)

  function IdentityOf(key: SshKey): Identity {
    match key.signer
    case Direct(_, pub) => Identity(pub.format, pub.blob, key.comment)
    case Paired(sshCert, _) => Identity(sshCert.format, sshCert.blob, key.comment)
  }

  function IdentitiesOf(keys: seq<SshKey>): (ids: seq<Identity>)
    ensures |ids| == |keys|
  {
    seq(|keys|, i requires 0 <= i < |keys| => IdentityOf(keys[i]))
  }

  // ---------------------------------------------------------------- what a listing should contain

  /** The certificate store, the OpenSSH certificates in the profile folder by name, and failing duplications. */
  datatype World = World(store: Store, files: map<string, SshCert>, copyFails: set<Context>)

  /** The OpenSSH certificate paired with a store certificate: by serial number, else by comment. */
  function PairedFile(files: map<string, SshCert>, x509: X509): Option<SshCert> {
    if x509.serial + "-cert.pub" in files then Some(files[x509.serial + "-cert.pub"])
    else if x509.commonName + "-cert.pub" in files then Some(files[x509.commonName + "-cert.pub"])
    else None
  }

  /** The store certificate is offered as an identity. */
  predicate Offered(x509: X509) {
    x509.allowed && x509.key.Some? && x509.key.value.kind != OtherKind
  }

  /** It is offered a second time, under an OpenSSH certificate for the same key. */
  predicate HasPair(w: World, cert: Certificate) {
    && Offered(cert.x509)
    && PairedFile(w.files, cert.x509).Some?
    && PairedFile(w.files, cert.x509).value.keyBlob == cert.x509.key.value.blob
    && cert.context !in w.copyFails
  }

  function Offers(w: World, cert: Certificate): seq<Identity> {
    if !Offered(cert.x509) then []
    else
      var pub := cert.x509.key.value;
      [Identity(pub.format, pub.blob, cert.x509.commonName)]
      + if HasPair(w, cert) then
          var sshCert := PairedFile(w.files, cert.x509).value;
          [Identity(sshCert.format, sshCert.blob, sshCert.keyId)]
        else []
  }

  /** The listing of a store snapshot: a flat map over its certificates. */
  function Listing(w: World, certs: seq<Certificate>): seq<Identity> {
    if certs == [] then [] else Listing(w, certs[..|certs| - 1]) + Offers(w, certs[|certs| - 1])
  }

  function StoreListing(w: World): seq<Identity> {
    Listing(w, CertsFor(Collected(w.store.entries), 0))
  }

  /** The store certificate has a key the agent can sign with, and its extended key usage allows it. */
  predicate Usable(x509: X509) {
    x509.allowed && x509.key.Some? && (x509.key.value.kind == RSA || x509.key.value.kind == ECDSA)
  }

  /** The file found by serial number, or, if there is none, by common name. */
  ghost predicate FileFor(w: World, x509: X509, file: SshCert) {
    var bySerial, byName := x509.serial + "-cert.pub", x509.commonName + "-cert.pub";
    || (bySerial in w.files && file == w.files[bySerial])
    || (bySerial !in w.files && byName in w.files && file == w.files[byName])
  }

  /**
   What a store certificate is listed as: nothing unless it is usable; then itself under its common name, followed,
   if the file found for it certifies the same key and its reference can be duplicated, by that file's
   certificate under its key id.
   */
  lemma OffersAre(w: World, cert: Certificate, file: SshCert)
    ensures !Usable(cert.x509) ==> Offers(w, cert) == []
    ensures Usable(cert.x509) ==>
              var pub := cert.x509.key.value;
              var own := Identity(pub.format, pub.blob, cert.x509.commonName);
              && (FileFor(w, cert.x509, file) && file.keyBlob == pub.blob && cert.context !in w.copyFails ==>
                    Offers(w, cert) == [own, Identity(file.format, file.blob, file.keyId)])
              && (FileFor(w, cert.x509, file) && (file.keyBlob != pub.blob || cert.context in w.copyFails) ==>
                    Offers(w, cert) == [own])
              && ((forall f :: !FileFor(w, cert.x509, f)) ==> Offers(w, cert) == [own])
  {
    if PairedFile(w.files, cert.x509).Some? {
      assert FileFor(w, cert.x509, PairedFile(w.files, cert.x509).value);
    }
  }

  /** A store is listed certificate by certificate, in order. */
  lemma {:induction false} ListingInOrder(w: World, first: seq<Certificate>, cert: Certificate, after: seq<Certificate>)
    ensures Listing(w, []) == [] && Listing(w, [cert]) == Offers(w, cert)
    ensures Listing(w, first + after) == Listing(w, first) + Listing(w, after)
    decreases after
  {
    assert [cert][..0] == [];
    if after == [] {
      assert first + after == first;
    } else {
      var front := after[..|after| - 1];
      ListingInOrder(w, first, cert, front);
      assert (first + after)[..|first + after| - 1] == first + front;
      Regroup(Listing(w, first), Listing(w, front), Offers(w, after[|after| - 1]));
    }
  }

  lemma OffersIgnoresNumber(w: World, a: Certificate, b: Certificate)
    requires a.context == b.context && a.x509 == b.x509
    ensures Offers(w, a) == Offers(w, b)
  {
  }

  /** Which identities a certificate offers does not depend on how its reference is numbered. */
  lemma {:induction false} ListingIgnoresNumbers(w: World, entries: seq<StoreEntry>, first: nat)
    requires AllCollectable(entries)
    ensures Listing(w, CertsFor(entries, first)) == Listing(w, CertsFor(entries, 0))
  {
    if entries != [] {
      var front := entries[..|entries| - 1];
      ListingIgnoresNumbers(w, front, first);
      var certs, numbered := CertsFor(entries, 0), CertsFor(entries, first);
      assert numbered[..|entries| - 1] == CertsFor(front, first);
      assert certs[..|entries| - 1] == CertsFor(front, 0);
      OffersIgnoresNumber(w, numbered[|entries| - 1], certs[|entries| - 1]);
      assert Listing(w, numbered) == Listing(w, CertsFor(front, first)) + Offers(w, numbered[|entries| - 1]);
      assert Listing(w, certs) == Listing(w, CertsFor(front, 0)) + Offers(w, certs[|entries| - 1]);
    }
  }

  // ---------------------------------------------------------------- choosing and using a key

  /** The first key whose public blob is the wanted one. */
  function FirstMatch(keys: seq<SshKey>, wanted: seq<byte>): (r: Option<nat>)
    ensures r.Some? ==> r.value < |keys| && IdentityOf(keys[r.value]).blob == wanted
    ensures r.Some? ==> forall i :: 0 <= i < r.value ==> IdentityOf(keys[i]).blob != wanted
    ensures r.None? ==> forall i :: 0 <= i < |keys| ==> IdentityOf(keys[i]).blob != wanted
  {
    if keys == [] then None
    else if IdentityOf(keys[0]).blob == wanted then Some(0)
    else
      match FirstMatch(keys[1..], wanted)
      case None => None
      case Some(i) => Some(i + 1)
  }

  const SIGNATURE_FLAG_RSA_SHA256: nat := 2
  const SIGNATURE_FLAG_RSA_SHA512: nat := 4

  datatype SignError = LoadFailed | NoSuchKey | NoAlgorithmChoice | UnsupportedFlags | SigningFailed

  datatype SignResult = Signed(signature: seq<byte>) | Failed(error: SignError)

  /** How the provider answers one signer asked for one algorithm ("" is the default). */
  type Providers = (Signer, string) -> Provider

  function Answer(p: Provider, disablePINCache: bool): SignResult {
    if (disablePINCache && p.key.None?) || p.signature.None? then Failed(SigningFailed)
    else Signed(p.signature.value)
  }

  /** What a signer makes of the requested flags. */
  function UseSigner(signer: Signer, flags: nat, providers: Providers, disablePINCache: bool): SignResult {
    if flags == 0 then Answer(providers(signer, ""), disablePINCache)
    else if !ChoosesAlgorithm(signer) then Failed(NoAlgorithmChoice)
    else if flags == SIGNATURE_FLAG_RSA_SHA256 then Answer(providers(signer, "rsa-sha2-256"), disablePINCache)
    else if flags == SIGNATURE_FLAG_RSA_SHA512 then Answer(providers(signer, "rsa-sha2-512"), disablePINCache)
    else Failed(UnsupportedFlags)
  }

  /** The public key of the store certificate that a signer stands on. */
  function KeyUnder(signer: Signer): PublicKey {
    match signer
    case Direct(_, pub) => pub
    case Paired(_, inner) => KeyUnder(inner)
  }

  /** The provider was asked for this algorithm, and what it said is the result. */
  predicate Asked(p: Provider, disablePINCache: bool, result: SignResult) {
    if disablePINCache && p.key == None then result == Failed(SigningFailed)
    else if p.signature == None then result == Failed(SigningFailed)
    else result == Signed(p.signature.value)
  }

  /**
   The flags choose what the provider is asked for: 0 the default algorithm; 2 and 4, on an RSA key, its SHA-256
   and SHA-512 ones. With any other flags, or any flags on another key, the provider is not asked.
   */
  predicate ChosenByFlags(signer: Signer, flags: nat, providers: Providers, disablePINCache: bool, result: SignResult) {
    var rsa := KeyUnder(signer).kind == RSA;
    && (flags == 0 ==> Asked(providers(signer, ""), disablePINCache, result))
    && (flags == 2 && rsa ==> Asked(providers(signer, "rsa-sha2-256"), disablePINCache, result))
    && (flags == 4 && rsa ==> Asked(providers(signer, "rsa-sha2-512"), disablePINCache, result))
    && (flags != 0 && !rsa ==> result == Failed(NoAlgorithmChoice))
    && (flags !in {0, 2, 4} && rsa ==> result == Failed(UnsupportedFlags))
  }

  lemma {:induction false} RSAChooses(signer: Signer)
    ensures ChoosesAlgorithm(signer) <==> KeyUnder(signer).kind == RSA
  {
    if signer.Paired? {
      RSAChooses(signer.inner);
    }
  }

  lemma UseSignerChooses(signer: Signer, flags: nat, providers: Providers, disablePINCache: bool)
    ensures ChosenByFlags(signer, flags, providers, disablePINCache,
                          UseSigner(signer, flags, providers, disablePINCache))
  {
    RSAChooses(signer);
  }

  /** What each RSA algorithm is asked for by, and that its signature is handed on. */
  lemma RSAAlgorithms(signer: Signer, providers: Providers, p: Provider, signature: seq<byte>, disablePINCache: bool)
    requires KeyUnder(signer).kind == RSA && p.signature == Some(signature) && (disablePINCache ==> p.key.Some?)
    ensures providers(signer, "") == p ==> UseSigner(signer, 0, providers, disablePINCache) == Signed(signature)
    ensures providers(signer, "rsa-sha2-256") == p ==>
              UseSigner(signer, 2, providers, disablePINCache) == Signed(signature)
    ensures providers(signer, "rsa-sha2-512") == p ==>
              UseSigner(signer, 4, providers, disablePINCache) == Signed(signature)
  {
    RSAChooses(signer);
  }

  /** Signing goes to the first key with the wanted blob. */
  function SignWith(keys: seq<SshKey>, wanted: seq<byte>, flags: nat, providers: Providers, disablePINCache: bool):
    SignResult
  {
    match FirstMatch(keys, wanted)
    case None => Failed(NoSuchKey)
    case Some(i) => UseSigner(keys[i].signer, flags, providers, disablePINCache)
  }

  /**
   A listed identity can always be asked to sign: the first key with its blob answers, never "not found";
   only a blob that is not listed gets that.
   */
  lemma ListedMeansSignable(keys: seq<SshKey>, wanted: seq<byte>, flags: nat, providers: Providers,
                            disablePINCache: bool)
    ensures SignWith(keys, wanted, flags, providers, disablePINCache) == Failed(NoSuchKey)
       <==> forall id <- IdentitiesOf(keys) :: id.blob != wanted
  {
    var ids := IdentitiesOf(keys);
    match FirstMatch(keys, wanted)
    case None =>
    case Some(i) => assert ids[i] in ids && ids[i].blob == wanted;
  }

  lemma FirstMatchIs(keys: seq<SshKey>, wanted: seq<byte>, i: nat)
    requires i < |keys| && IdentityOf(keys[i]).blob == wanted
    requires forall j :: 0 <= j < i ==> IdentityOf(keys[j]).blob != wanted
    ensures FirstMatch(keys, wanted) == Some(i)
  {
  }

  /** Entry n of this listing is the first with the wanted blob. */
  predicate FirstEntry(ids: seq<Identity>, n: nat, wanted: seq<byte>) {
    n < |ids| && ids[n].blob == wanted && forall j :: 0 <= j < n ==> ids[j].blob != wanted
  }

  /** The first match in a key list is the first entry with that blob in its listing. */
  lemma MatchIsFirstEntry(keys: seq<SshKey>, wanted: seq<byte>, n: nat)
    requires FirstEntry(IdentitiesOf(keys), n, wanted)
    ensures FirstMatch(keys, wanted) == Some(n)
  {
    forall j | 0 <= j < n ensures IdentityOf(keys[j]).blob != wanted {
      assert IdentitiesOf(keys)[j] == IdentityOf(keys[j]);
    }
    FirstMatchIs(keys, wanted, n);
  }

  /** So the flags choose for the key behind the first entry with the blob. */
  lemma FirstEntryChooses(keys: seq<SshKey>, wanted: seq<byte>, flags: nat, providers: Providers,
                          disablePINCache: bool)
    ensures forall n: nat :: FirstEntry(IdentitiesOf(keys), n, wanted) ==>
              ChosenByFlags(keys[n].signer, flags, providers, disablePINCache,
                            SignWith(keys, wanted, flags, providers, disablePINCache))
  {
    forall n: nat | FirstEntry(IdentitiesOf(keys), n, wanted)
      ensures ChosenByFlags(keys[n].signer, flags, providers, disablePINCache,
                            SignWith(keys, wanted, flags, providers, disablePINCache))
    {
      MatchIsFirstEntry(keys, wanted, n);
      UseSignerChooses(keys[n].signer, flags, providers, disablePINCache);
    }
  }

  // ---------------------------------------------------------------- ownership

  /** One of the first n keys owns this reference. */
  predicate OwnsBefore(keys: seq<SshKey>, n: nat, handle: nat)
    requires n <= |keys|
  {
    exists i :: 0 <= i < n && keys[i].cert.handle == handle
  }

  predicate Owns(keys: seq<SshKey>, handle: nat) {
    OwnsBefore(keys, |keys|, handle)
  }

  lemma OwnsStep(keys: seq<SshKey>, n: nat)
    requires n < |keys|
    ensures forall h: nat :: OwnsBefore(keys, n + 1, h) <==> OwnsBefore(keys, n, h) || h == keys[n].cert.handle
  {
    assert OwnsBefore(keys, n + 1, keys[n].cert.handle);
  }

  lemma OwnsAppend(keys: seq<SshKey>, more: seq<SshKey>)
    ensures forall h: nat :: Owns(keys + more, h) <==> Owns(keys, h) || Owns(more, h)
  {
    forall h: nat | Owns(keys, h) || Owns(more, h) ensures Owns(keys + more, h) {
      if Owns(keys, h) {
        var i :| 0 <= i < |keys| && keys[i].cert.handle == h;
        assert (keys + more)[i].cert.handle == h;
      } else {
        var i :| 0 <= i < |more| && more[i].cert.handle == h;
        assert (keys + more)[|keys| + i].cert.handle == h;
      }
    }
  }

  /** No two keys own the same reference. */
  predicate OwnedOnce(keys: seq<SshKey>) {
    forall i, j :: 0 <= i < j < |keys| ==> keys[i].cert.handle != keys[j].cert.handle
  }

  /** Every key's own reference, and the one its signer will use, is live and to the right context. */
  predicate Backed(keys: seq<SshKey>, live: map<nat, Context>) {
    forall k <- keys ::
      && k.cert.handle in live && live[k.cert.handle] == k.cert.context
      && Root(k.signer).handle in live && live[Root(k.signer).handle] == Root(k.signer).context
  }

  /** The reference a signer will use is owned by a key of the same list. */
  predicate Rooted(keys: seq<SshKey>) {
    forall k <- keys :: Owns(keys, Root(k.signer).handle)
  }

  /**
   Part-way through a load: the live references are the leaked ones, those of the keys found so far, and
   those numbered from..last of the certificates still to be looked at.
   */
  ghost predicate Holding(found: seq<SshKey>, live: map<nat, Context>, leaked: set<nat>, from: nat, last: nat) {
    && (forall h: nat :: h in live <==> h in leaked || Owns(found, h) || from <= h < last)
    && (forall h: nat :: Owns(found, h) ==> h !in leaked && !(from <= h < last))
    && (forall h: nat :: h in leaked ==> h < from)
    && OwnedOnce(found) && Backed(found, live) && Rooted(found)
  }

  /** What one round of the load does: `added` own certificate `handle`, if it stays live, and new references. */
  ghost predicate Round(handle: nat, before: map<nat, Context>, after: map<nat, Context>, next: nat,
                        added: seq<SshKey>) {
    && OwnedOnce(added) && Backed(added, after) && Rooted(added)
    && (forall h: nat :: Owns(added, h) <==> h in after && (h == handle || h >= next))
    && (forall h: nat :: h in before && h != handle ==> h in after && after[h] == before[h])
    && (forall h: nat :: h in after && h < next ==> h in before)
  }

  lemma OwnsOwn(keys: seq<SshKey>)
    ensures forall i :: 0 <= i < |keys| ==> Owns(keys, keys[i].cert.handle)
  {
    forall i | 0 <= i < |keys| ensures Owns(keys, keys[i].cert.handle) {
    }
  }

  lemma OwnedOnceAppend(found: seq<SshKey>, added: seq<SshKey>)
    requires OwnedOnce(found) && OwnedOnce(added)
    requires forall h: nat :: Owns(found, h) ==> !Owns(added, h)
    ensures OwnedOnce(found + added)
  {
    OwnsOwn(found);
    OwnsOwn(added);
    var all := found + added;
    forall i, j | 0 <= i < j < |all| ensures all[i].cert.handle != all[j].cert.handle {
      if i < |found| <= j {
        assert all[i] == found[i] && all[j] == added[j - |found|];
      }
    }
  }

  lemma BackedAppend(found: seq<SshKey>, added: seq<SshKey>, before: map<nat, Context>, after: map<nat, Context>)
    requires Backed(found, before) && Rooted(found) && Backed(added, after) && Rooted(added)
    requires forall h: nat :: Owns(found, h) && h in before ==> h in after && after[h] == before[h]
    ensures Backed(found + added, after) && Rooted(found + added)
  {
    OwnsAppend(found, added);
    forall i | 0 <= i < |found|
      ensures && found[i].cert.handle in after && after[found[i].cert.handle] == found[i].cert.context
              && Root(found[i].signer).handle in after
              && after[Root(found[i].signer).handle] == Root(found[i].signer).context
    {
      assert found[i] in found && Owns(found, found[i].cert.handle) && Owns(found, Root(found[i].signer).handle);
    }
  }

  lemma RoundKeepsHolding(found: seq<SshKey>, added: seq<SshKey>, before: map<nat, Context>, after: map<nat, Context>,
                          leaked: set<nat>, from: nat, last: nat, next: nat)
    requires Holding(found, before, leaked, from, last) && from < last <= next
    requires forall h: nat :: h in before ==> h < next
    requires Round(from, before, after, next, added)
    ensures Holding(found + added, after, leaked, from + 1, last)
  {
    assert forall h: nat :: Owns(found, h) ==> h in before && h != from;
    OwnedOnceAppend(found, added);
    BackedAppend(found, added, before, after);
    OwnsAppend(found, added);
    assert forall h: nat :: h in after <==> h in leaked || Owns(found, h) || Owns(added, h) || from + 1 <= h < last;
  }

  /** Freshly loaded references, none looked at yet. */
  lemma LoadStartsHolding(certs: seq<Certificate>, before: map<nat, Context>, after: map<nat, Context>, first: nat)
    requires Extends(before, after, certs, first)
    requires forall h: nat :: h in before ==> h < first
    ensures Holding([], after, before.Keys, first, first + |certs|)
    ensures forall j :: 0 <= j < |certs| ==>
              certs[j].handle in after && after[certs[j].handle] == certs[j].context
  {
  }

  lemma ListingStep(w: World, certs: seq<Certificate>, i: nat, found: seq<SshKey>, added: seq<SshKey>)
    requires i < |certs|
    requires IdentitiesOf(found) == Listing(w, certs[..i]) && IdentitiesOf(added) == Offers(w, certs[i])
    ensures IdentitiesOf(found + added) == Listing(w, certs[..i + 1])
  {
    assert IdentitiesOf(found + added) == IdentitiesOf(found) + IdentitiesOf(added);
    assert certs[..i + 1][..i] == certs[..i];
  }

  lemma {:induction false} AddedInterval(a: set<nat>, b: set<nat>, from: nat, n: nat)
    requires forall h: nat :: h in a ==> h < from
    requires forall h: nat :: h in b <==> h in a || from <= h < from + n
    ensures |b| == |a| + n
  {
    if n == 0 {
      assert a == b;
    } else {
      AddedInterval(a, b - {from + n - 1}, from, n - 1);
    }
  }

  class Agent {
    const table: ContextTable
    const disablePINCache: bool
    /** None is the nil list: nothing loaded yet. */
    var keys: Option<seq<SshKey>>
    /** References dropped by loads whose enumeration failed half-way. */
    ghost var leaked: set<nat>

    function Keys(): seq<SshKey>
      reads this
    {
      if keys.Some? then keys.value else []
    }

    /** The live references are exactly those of the cached keys, one each, and the leaked ones. */
    ghost predicate Valid()
      reads this, table
    {
      && table.Valid()
      && (forall h: nat :: h in table.live <==> Owns(Keys(), h) || h in leaked)
      && (forall h: nat :: h in leaked ==> !Owns(Keys(), h))
      && OwnedOnce(Keys())
      && Backed(Keys(), table.live) && Rooted(Keys())
    }

    constructor (table: ContextTable, disablePINCache: bool)
      requires table.Valid() && table.live == map[]
      ensures Valid() && this.table == table && keys == None && leaked == {}
    {
      this.table, this.disablePINCache := table, disablePINCache;
      keys, leaked := None, {};
    }

    /** Frees the references of all these keys; `ok` reports the last call only. */
    method FreeAll(all: seq<SshKey>) returns (ok: bool)
      requires table.Valid() && OwnedOnce(all) && Backed(all, table.live)
      modifies table`live, table`freed
      ensures table.Valid()
      ensures forall h: nat :: h in table.live <==> h in old(table.live) && !Owns(all, h)
      ensures ok <==> all == [] || all[|all| - 1].cert.context !in table.freeFails
    {
      ok := true;
      for i := 0 to |all|
        invariant table.Valid()
        invariant forall h: nat :: h in table.live <==> h in old(table.live) && !OwnsBefore(all, i, h)
        invariant forall h: nat :: h in table.live ==> table.live[h] == old(table.live[h])
        invariant ok <==> i == 0 || all[i - 1].cert.context !in table.freeFails
      {
        OwnsStep(all, i);
        assert all[i] in all;
        ok := table.Free(all[i].cert);
      }
    }

    /** Frees every key's reference and forgets the keys; only leaked references stay live. */
    method Close() returns (ok: bool)
      requires Valid()
      modifies this`keys, table`live, table`freed
      ensures Valid() && keys == None
      ensures table.live.Keys == leaked
      ensures ok <==> old(Keys()) == [] || old(Keys())[|old(Keys())| - 1].cert.context !in table.freeFails
    {
      ok := FreeAll(Keys());
      keys := None;
    }

    /** Pairs a loaded key with an OpenSSH certificate from the profile folder, duplicating its reference. */
    method LoadSSHCertificate(key: SshKey, w: World) returns (paired: Option<SshKey>)
      requires table.Valid() && key.cert.handle in table.live && table.live[key.cert.handle] == key.cert.context
      requires key.signer.Direct? && key.signer.cert == key.cert && Offered(key.cert.x509)
      requires key.signer.pub == key.cert.x509.key.value && key.comment == key.cert.x509.commonName
      modifies table
      ensures table.Valid()
      ensures paired.Some? <==> HasPair(w, key.cert)
      ensures paired.Some? ==>
                && var sshCert := PairedFile(w.files, key.cert.x509).value;
                && paired.value == SshKey(Certificate(old(table.next), key.cert.context, key.cert.x509),
                                          Paired(sshCert, key.signer), sshCert.keyId)
                && table.live == old(table.live)[old(table.next) := key.cert.context]
                && table.next == old(table.next) + 1
      ensures paired.None? ==> table.live == old(table.live) && table.next == old(table.next)
    {
      var filename := key.cert.x509.serial + "-cert.pub";
      var sshCert := if filename in w.files then Some(w.files[filename]) else None;
      if sshCert.None? {
        filename := key.comment + "-cert.pub";
        sshCert := if filename in w.files then Some(w.files[filename]) else None;
      }
      if sshCert.None? || sshCert.value.keyBlob != key.signer.pub.blob {
        return None;
      }
      var copy := table.Copy(key.cert, key.cert.context !in w.copyFails);
      if copy.None? {
        return None;
      }
      paired := Some(SshKey(copy.value, Paired(sshCert.value, key.signer), sshCert.value.keyId));
    }

    /** One round of the load: frees a certificate that is not offered, keeps one that is, and adds its pair. */
    method LoadKey(cert: Certificate, w: World) returns (added: seq<SshKey>)
      requires table.Valid() && cert.handle in table.live && table.live[cert.handle] == cert.context
      modifies table
      ensures table.Valid() && old(table.next) <= table.next
      ensures IdentitiesOf(added) == Offers(w, cert)
      ensures Round(cert.handle, old(table.live), table.live, old(table.next), added)
    {
      if !cert.x509.allowed || cert.x509.key.None? || cert.x509.key.value.kind == OtherKind {
        var _ := table.Free(cert);
        return [];
      }
      var key := SshKey(cert, Direct(cert, cert.x509.key.value), cert.x509.commonName);
      added := [key];
      assert added[0].cert.handle == cert.handle;
      var paired := LoadSSHCertificate(key, w);
      if paired.Some? {
        added := added + [paired.value];
        assert added[1].cert.handle == old(table.next) && added[0].cert.handle == cert.handle;
      }
    }

    /** The loop of the load over the collected certificates. */
    method KeepOffered(certs: seq<Certificate>, w: World, ghost leaked: set<nat>, ghost first: nat)
      returns (found: seq<SshKey>)
      requires table.Valid() && table.next == first + |certs|
      requires Holding([], table.live, leaked, first, first + |certs|)
      requires forall j :: 0 <= j < |certs| ==>
                 && certs[j].handle == first + j
                 && certs[j].handle in table.live && table.live[certs[j].handle] == certs[j].context
      modifies table
      ensures table.Valid()
      ensures Holding(found, table.live, leaked, first + |certs|, first + |certs|)
      ensures IdentitiesOf(found) == Listing(w, certs)
    {
      ghost var last := table.next;
      found := [];
      for i := 0 to |certs|
        invariant table.Valid() && last <= table.next
        invariant Holding(found, table.live, leaked, first + i, last)
        invariant forall j :: i <= j < |certs| ==>
                    certs[j].handle in table.live && table.live[certs[j].handle] == certs[j].context
        invariant IdentitiesOf(found) == Listing(w, certs[..i])
      {
        ghost var before, next := table.live, table.next;
        var added := LoadKey(certs[i], w);
        RoundKeepsHolding(found, added, before, table.live, leaked, first + i, last, next);
        ListingStep(w, certs, i, found, added);
        found := found + added;
      }
      assert certs[..|certs|] == certs;
    }

    /** Loads the store into an empty cache. */
    method LoadCerts(w: World) returns (ok: bool)
      requires Valid() && keys == None
      modifies this`keys, this`leaked, table
      ensures Valid()
      ensures ok <==> Loads(w.store)
      ensures ok ==> keys.Some? && IdentitiesOf(Keys()) == StoreListing(w) && leaked == old(leaked)
      ensures !ok ==> keys == None && |leaked| == |old(leaked)| + Dropped(w.store)
    {
      ghost var first := table.next;
      var loaded := LoadUserCerts(table, w.store);
      if loaded.None? {
        leaked := table.live.Keys;
        AddedInterval(old(leaked), leaked, first, Dropped(w.store));
        return false;
      }
      var certs := loaded.value;
      LoadStartsHolding(certs, old(table.live), table.live, first);
      assert old(table.live).Keys == leaked;
      var found := KeepOffered(certs, w, leaked, first);
      ListingIgnoresNumbers(w, Collected(w.store.entries), first);
      keys := Some(found);
      return true;
    }

    /** Lists the store as it is now, as the flat map over it; the old references are freed first. */
    method List(w: World) returns (ids: Option<seq<Identity>>)
      requires Valid()
      modifies this`keys, this`leaked, table
      ensures Valid()
      ensures ids.Some? <==> Loads(w.store)
      ensures ids.Some? ==> keys.Some? && ids.value == StoreListing(w) == IdentitiesOf(Keys()) && leaked == old(leaked)
      ensures ids.None? ==> keys == None && table.live.Keys == leaked && |leaked| == |old(leaked)| + Dropped(w.store)
    {
      if keys.Some? {
        var _ := Close();
      }
      var ok := LoadCerts(w);
      if !ok {
        return None;
      }
      var published := Publish();
      ids := Some(published);
    }

    /** The identities of the cached keys. */
    method Publish() returns (ids: seq<Identity>)
      ensures ids == IdentitiesOf(Keys())
    {
      ids := [];
      var all := Keys();
      for i := 0 to |all|
        invariant ids == IdentitiesOf(all)[..i]
      {
        ids := ids + [IdentityOf(all[i])];
      }
    }

    /** A signer's call into the provider: only on a live reference. */
    method CallSigner(signer: Signer, p: Provider) returns (result: SignResult)
      requires Root(signer).handle in table.live && table.live[Root(signer).handle] == Root(signer).context
      ensures result == Answer(p, disablePINCache)
    {
      var signature, _ := Sign(table, Root(signer), disablePINCache, p);
      result := if signature.Some? then Signed(signature.value) else Failed(SigningFailed);
    }

    /** What signing with one key comes to, given the flags. */
    method UseKey(signer: Signer, flags: nat, providers: Providers) returns (result: SignResult)
      requires Root(signer).handle in table.live && table.live[Root(signer).handle] == Root(signer).context
      ensures result == UseSigner(signer, flags, providers, disablePINCache)
    {
      if flags == 0 {
        result := CallSigner(signer, providers(signer, ""));
      } else if !ChoosesAlgorithm(signer) {
        result := Failed(NoAlgorithmChoice);
      } else if flags == SIGNATURE_FLAG_RSA_SHA256 {
        result := CallSigner(signer, providers(signer, "rsa-sha2-256"));
      } else if flags == SIGNATURE_FLAG_RSA_SHA512 {
        result := CallSigner(signer, providers(signer, "rsa-sha2-512"));
      } else {
        result := Failed(UnsupportedFlags);
      }
    }

    /** Signs with the first cached key holding the wanted blob; every reference used is live at the call. */
    method SignCached(wanted: seq<byte>, flags: nat, providers: Providers) returns (result: SignResult)
      requires Backed(Keys(), table.live)
      ensures result == SignWith(Keys(), wanted, flags, providers, disablePINCache)
    {
      var all := Keys();
      for i := 0 to |all|
        invariant forall j :: 0 <= j < i ==> IdentityOf(all[j]).blob != wanted
      {
        if IdentityOf(all[i]).blob == wanted {
          FirstMatchIs(all, wanted, i);
          assert all[i] in all;
          result := UseKey(all[i].signer, flags, providers);
          return;
        }
      }
      result := Failed(NoSuchKey);
    }

    /** Signs, loading the store if nothing is cached; a cached list is left as it is. */
    method SignWithFlags(w: World, wanted: seq<byte>, flags: nat, providers: Providers) returns (result: SignResult)
      requires Valid()
      modifies this`keys, this`leaked, table
      ensures Valid()
      ensures old(keys).Some? ==> keys == old(keys) && leaked == old(leaked) && table.live == old(table.live)
      ensures old(keys).None? && Loads(w.store) ==>
                keys.Some? && IdentitiesOf(Keys()) == StoreListing(w) && leaked == old(leaked)
      ensures old(keys).None? && !Loads(w.store) ==>
                && result == Failed(LoadFailed) && keys == None && |leaked| == |old(leaked)| + Dropped(w.store)
      ensures keys.Some? ==> result == SignWith(Keys(), wanted, flags, providers, disablePINCache)
      ensures keys.Some? ==> forall n: nat :: FirstEntry(IdentitiesOf(Keys()), n, wanted) ==>
                               ChosenByFlags(Keys()[n].signer, flags, providers, disablePINCache, result)
    {
      if keys.None? {
        var ok := LoadCerts(w);
        if !ok {
          return Failed(LoadFailed);
        }
      }
      result := SignCached(wanted, flags, providers);
      FirstEntryChooses(Keys(), wanted, flags, providers, disablePINCache);
    }
  }

  // ---------------------------------------------------------------- any sequence of operations

  datatype Operation =
    | ListKeys(w: World)
    | Use(w: World, wanted: seq<byte>, flags: nat, providers: Providers)
    | Shut

  datatype Outcome = Listed(ids: Option<seq<Identity>>) | Used(result: SignResult) | Closed

  /** The listing that a cached key list stands for. */
  function Published(keys: Option<seq<SshKey>>): Option<seq<Identity>> {
    if keys.Some? then Some(IdentitiesOf(keys.value)) else None
  }

  /** What is cached after an operation; listing always loads, signing only when nothing is cached. */
  function CacheAfter(op: Operation, cache: Option<seq<Identity>>): Option<seq<Identity>> {
    match op
    case ListKeys(w) => if Loads(w.store) then Some(StoreListing(w)) else None
    case Use(w, _, _, _) => if cache.None? && Loads(w.store) then Some(StoreListing(w)) else cache
    case Shut => None
  }

  function CachedAfter(ops: seq<Operation>, cache: Option<seq<Identity>>): Option<seq<Identity>> {
    if ops == [] then cache else CacheAfter(ops[|ops| - 1], CachedAfter(ops[..|ops| - 1], cache))
  }

  /** The references an operation leaks: those its load drops, if it does load. */
  function Leaks(op: Operation, cache: Option<seq<Identity>>): nat {
    if op.Shut? || (op.Use? && cache.Some?) then 0 else Dropped(op.w.store)
  }

  function LeakedBy(ops: seq<Operation>, cache: Option<seq<Identity>>): nat {
    if ops == [] then 0
    else
      var front := ops[..|ops| - 1];
      LeakedBy(front, cache) + Leaks(ops[|ops| - 1], CachedAfter(front, cache))
  }

  lemma RunStep(ops: seq<Operation>, cache: Option<seq<Identity>>, i: nat)
    requires i < |ops|
    ensures CachedAfter(ops[..i + 1], cache) == CacheAfter(ops[i], CachedAfter(ops[..i], cache))
    ensures LeakedBy(ops[..i + 1], cache) == LeakedBy(ops[..i], cache) + Leaks(ops[i], CachedAfter(ops[..i], cache))
  {
    assert ops[..i + 1][..i] == ops[..i];
  }

  /** What operation i of a run leaks. */
  function LeaksAt(ops: seq<Operation>, cache: Option<seq<Identity>>, i: nat): nat
    requires i < |ops|
  {
    Leaks(ops[i], CachedAfter(ops[..i], cache))
  }

  /** None of the first n operations leaks. */
  ghost predicate NoneLeaks(ops: seq<Operation>, cache: Option<seq<Identity>>, n: nat)
    requires n <= |ops|
  {
    forall i :: 0 <= i < n ==> LeaksAt(ops, cache, i) == 0
  }

  lemma LeakedByStep(ops: seq<Operation>, cache: Option<seq<Identity>>, n: nat)
    requires n < |ops|
    ensures LeakedBy(ops[..n + 1], cache) == LeakedBy(ops[..n], cache) + LeaksAt(ops, cache, n)
  {
    RunStep(ops, cache, n);
  }

  lemma NoneLeaksStep(ops: seq<Operation>, cache: Option<seq<Identity>>, n: nat)
    requires n < |ops|
    ensures NoneLeaks(ops, cache, n + 1) <==> NoneLeaks(ops, cache, n) && LeaksAt(ops, cache, n) == 0
  {
  }

  lemma {:induction false} LeaksNothingBefore(ops: seq<Operation>, cache: Option<seq<Identity>>, n: nat)
    requires n <= |ops|
    ensures LeakedBy(ops[..n], cache) == 0 <==> NoneLeaks(ops, cache, n)
  {
    if n > 0 {
      LeaksNothingBefore(ops, cache, n - 1);
      LeakedByStep(ops, cache, n - 1);
      NoneLeaksStep(ops, cache, n - 1);
    }
  }

  /** A run leaks nothing exactly when no load of it fails half-way with references in hand. */
  lemma LeaksNothingIff(ops: seq<Operation>, cache: Option<seq<Identity>>)
    ensures LeakedBy(ops, cache) == 0 <==> NoneLeaks(ops, cache, |ops|)
  {
    LeaksNothingBefore(ops, cache, |ops|);
    assert ops[..|ops|] == ops;
  }

  /** Such a load: the enumeration fails after one certificate was taken, which is then live even after a close. */
  lemma LeakExists(context: Context, x509: X509) returns (op: Operation)
    ensures Leaks(op, None) == 1 && LeakedBy([op, Shut], None) == 1
  {
    var found := Found(context, true, Some(x509), true);
    var entries := [found, EnumerationFailed];
    assert entries[1..] == [EnumerationFailed];
    assert Collected(entries) == [found] + Collected(entries[1..]);
    assert Completes(entries) == Completes(entries[1..]);
    op := ListKeys(World(Store(true, entries), map[], {}));
    RunStep([op, Shut], None, 0);
    RunStep([op, Shut], None, 1);
    assert [op, Shut][..2] == [op, Shut];
  }

  /**
   What an operation does to the key list and answers. A listing publishes the list it leaves; signing with a
   list that is there leaves it alone, and its answer is that of the first key with the wanted blob.
   */
  ghost predicate Answers(op: Operation, before: Option<seq<SshKey>>, after: Option<seq<SshKey>>,
                          disablePINCache: bool, outcome: Outcome) {
    && Published(after) == CacheAfter(op, Published(before))
    && match op
       case ListKeys(_) => outcome == Listed(Published(after))
       case Use(_, wanted, flags, providers) =>
         && (before.Some? ==> after == before)
         && outcome == Used(if after.None? then Failed(LoadFailed)
                            else SignWith(after.value, wanted, flags, providers, disablePINCache))
       case Shut => outcome == Closed
  }

  /** One operation: its answer, the new key list, and what it leaks. */
  method Perform(agent: Agent, op: Operation) returns (outcome: Outcome)
    requires agent.Valid()
    modifies agent`keys, agent`leaked, agent.table
    ensures agent.Valid()
    ensures Answers(op, old(agent.keys), agent.keys, agent.disablePINCache, outcome)
    ensures |agent.leaked| == |old(agent.leaked)| + Leaks(op, Published(old(agent.keys)))
    ensures op.Shut? ==> agent.table.live.Keys == agent.leaked
  {
    match op {
      case ListKeys(w) =>
        var ids := agent.List(w);
        outcome := Listed(ids);
      case Use(w, wanted, flags, providers) =>
        var result := agent.SignWithFlags(w, wanted, flags, providers);
        outcome := Used(result);
      case Shut =>
        var _ := agent.Close();
        outcome := Closed;
    }
  }

  /** A run as it can be observed: what it answers, and the key list that each operation leaves. */
  datatype Trace = Trace(start: Option<seq<SshKey>>, outcomes: seq<Outcome>, caches: seq<Option<seq<SshKey>>>) {
    /** The key list that operation i finds. */
    function Before(i: nat): Option<seq<SshKey>>
      requires i <= |caches|
    {
      if i == 0 then start else caches[i - 1]
    }

    function Extend(outcome: Outcome, keys: Option<seq<SshKey>>): Trace {
      Trace(start, outcomes + [outcome], caches + [keys])
    }
  }

  /** Operation i did and answered what the key list it found determines. */
  ghost predicate AnswersAt(ops: seq<Operation>, t: Trace, disablePINCache: bool, i: nat)
    requires i < |ops| && i < |t.caches| && i < |t.outcomes|
  {
    Answers(ops[i], t.Before(i), t.caches[i], disablePINCache, t.outcomes[i])
  }

  /** So did each operation so far. */
  ghost predicate AnswersAll(ops: seq<Operation>, t: Trace, disablePINCache: bool) {
    && |t.outcomes| == |t.caches| <= |ops|
    && forall i :: 0 <= i < |t.caches| ==> AnswersAt(ops, t, disablePINCache, i)
  }

  lemma AnswersAppend(ops: seq<Operation>, t: Trace, disablePINCache: bool, outcome: Outcome, keys: Option<seq<SshKey>>)
    requires AnswersAll(ops, t, disablePINCache) && |t.caches| < |ops|
    requires Answers(ops[|t.caches|], t.Before(|t.caches|), keys, disablePINCache, outcome)
    ensures AnswersAll(ops, t.Extend(outcome, keys), disablePINCache)
  {
    var longer := t.Extend(outcome, keys);
    forall i | 0 <= i < |longer.caches| ensures AnswersAt(ops, longer, disablePINCache, i) {
      assert longer.Before(i) == t.Before(i);
      assert i < |t.caches| ==> AnswersAt(ops, t, disablePINCache, i);
    }
  }

  lemma AnswerPublishes(ops: seq<Operation>, t: Trace, disablePINCache: bool, i: nat)
    requires AnswersAll(ops, t, disablePINCache) && i < |t.caches|
    ensures Published(t.caches[i]) == CacheAfter(ops[i], Published(t.Before(i)))
  {
    assert AnswersAt(ops, t, disablePINCache, i);
  }

  /** The listings that the key lists stand for are those the operations determine. */
  lemma {:induction false} CachesAre(ops: seq<Operation>, t: Trace, disablePINCache: bool, i: nat)
    requires AnswersAll(ops, t, disablePINCache) && i <= |t.caches|
    ensures Published(t.Before(i)) == CachedAfter(ops[..i], Published(t.start))
  {
    if i > 0 {
      CachesAre(ops, t, disablePINCache, i - 1);
      RunStep(ops, Published(t.start), i - 1);
      AnswerPublishes(ops, t, disablePINCache, i - 1);
    }
  }

  lemma NothingLive(live: map<nat, Context>, leaked: set<nat>, before: set<nat>, count: nat)
    requires live.Keys == leaked && |leaked| == |before| + count
    ensures live == map[] <==> before == {} && count == 0
  {
    assert live == map[] <==> leaked == {};
    assert before == {} <==> |before| == 0;
  }

  /** Where a run stands after n operations, when `count` references had leaked before it. */
  ghost predicate Reached(ops: seq<Operation>, n: nat, t: Trace, disablePINCache: bool, count: nat,
                          keys: Option<seq<SshKey>>, leaked: set<nat>, live: set<nat>) {
    && n == |t.caches| && AnswersAll(ops, t, disablePINCache) && t.Before(n) == keys
    && |leaked| == count + LeakedBy(ops[..n], Published(t.start))
    && (n > 0 && ops[n - 1].Shut? ==> live == leaked)
  }

  lemma ReachedStep(ops: seq<Operation>, n: nat, t: Trace, disablePINCache: bool, count: nat,
                    keys: Option<seq<SshKey>>, leaked: set<nat>, live: set<nat>, outcome: Outcome,
                    newKeys: Option<seq<SshKey>>, newLeaked: set<nat>, newLive: set<nat>)
    requires Reached(ops, n, t, disablePINCache, count, keys, leaked, live) && n < |ops|
    requires Answers(ops[n], keys, newKeys, disablePINCache, outcome)
    requires |newLeaked| == |leaked| + Leaks(ops[n], Published(keys))
    requires ops[n].Shut? ==> newLive == newLeaked
    ensures Reached(ops, n + 1, t.Extend(outcome, newKeys), disablePINCache, count, newKeys, newLeaked, newLive)
  {
    CachesAre(ops, t, disablePINCache, n);
    RunStep(ops, Published(t.start), n);
    AnswersAppend(ops, t, disablePINCache, outcome, newKeys);
  }

  /**
   Any sequence of operations, whatever the stores, files and failures they meet: the live references stay
   exactly those of the cached keys and the leaked ones; what leaks is what the loads that fail half-way
   drop, no more and no less; after a close nothing is live if and only if nothing ever leaked; and
   every answer is the one the key list at that point gives.
   */
  method Session(agent: Agent, ops: seq<Operation>) returns (outcomes: seq<Outcome>, ghost t: Trace)
    requires agent.Valid()
    modifies agent`keys, agent`leaked, agent.table
    ensures agent.Valid()
    ensures |agent.leaked| == |old(agent.leaked)| + LeakedBy(ops, Published(old(agent.keys)))
    ensures ops != [] && ops[|ops| - 1].Shut? ==>
              && agent.table.live.Keys == agent.leaked
              && (agent.table.live == map[] <==>
                  old(agent.leaked) == {} && LeakedBy(ops, Published(old(agent.keys))) == 0)
    ensures t.start == old(agent.keys) && t.outcomes == outcomes && |outcomes| == |ops|
    ensures AnswersAll(ops, t, agent.disablePINCache) && t.Before(|ops|) == agent.keys
  {
    outcomes := [];
    t := Trace(agent.keys, [], []);
    ghost var leaked := agent.leaked;
    for i := 0 to |ops|
      invariant agent.Valid()
      invariant t.start == old(agent.keys) && t.outcomes == outcomes
      invariant Reached(ops, i, t, agent.disablePINCache, |leaked|, agent.keys, agent.leaked, agent.table.live.Keys)
    {
      ghost var keys, gone, live := agent.keys, agent.leaked, agent.table.live.Keys;
      var outcome := Perform(agent, ops[i]);
      ReachedStep(ops, i, t, agent.disablePINCache, |leaked|, keys, gone, live, outcome,
                  agent.keys, agent.leaked, agent.table.live.Keys);
      outcomes, t := outcomes + [outcome], t.Extend(outcome, agent.keys);
    }
    assert ops[..|ops|] == ops;
    if agent.table.live.Keys == agent.leaked {
      NothingLive(agent.table.live, agent.leaked, leaked, LeakedBy(ops, Published(t.start)));
    }
  }

  lemma UseKeeps(ops: seq<Operation>, t: Trace, disablePINCache: bool, i: nat)
    requires AnswersAll(ops, t, disablePINCache) && i < |t.caches| && ops[i].Use? && t.Before(i).Some?
    ensures t.caches[i] == t.Before(i)
  {
    assert AnswersAt(ops, t, disablePINCache, i);
  }

  /** Signing requests leave a key list as it is. */
  lemma {:induction false} KeysLast(ops: seq<Operation>, t: Trace, disablePINCache: bool, k: nat, i: nat)
    requires AnswersAll(ops, t, disablePINCache) && k <= i < |t.caches| && t.caches[k].Some?
    requires forall j :: k < j <= i ==> ops[j].Use?
    ensures t.caches[i] == t.caches[k]
    decreases i
  {
    if k < i {
      KeysLast(ops, t, disablePINCache, k, i - 1);
      UseKeeps(ops, t, disablePINCache, i);
    }
  }

  /**
   This is the answer to a signing request over the listing `ids`: of the key behind the first entry holding the
   blob, and "not found" exactly if there is none.
   */
  ghost predicate SignsFrom(ids: seq<Identity>, keys: seq<SshKey>, op: Operation, disablePINCache: bool,
                            result: SignResult)
    requires op.Use?
  {
    && IdentitiesOf(keys) == ids
    && (result == Failed(NoSuchKey) <==> forall id <- ids :: id.blob != op.wanted)
    && forall n: nat :: FirstEntry(ids, n, op.wanted) ==>
                          ChosenByFlags(keys[n].signer, op.flags, op.providers, disablePINCache, result)
  }

  lemma SignWithSignsFrom(keys: seq<SshKey>, op: Operation, disablePINCache: bool)
    requires op.Use?
    ensures SignsFrom(IdentitiesOf(keys), keys, op, disablePINCache,
                      SignWith(keys, op.wanted, op.flags, op.providers, disablePINCache))
  {
    ListedMeansSignable(keys, op.wanted, op.flags, op.providers, disablePINCache);
    FirstEntryChooses(keys, op.wanted, op.flags, op.providers, disablePINCache);
  }

  lemma ListingPublishes(ops: seq<Operation>, t: Trace, disablePINCache: bool, k: nat)
    requires AnswersAll(ops, t, disablePINCache) && k < |t.caches| && t.outcomes[k].Listed?
    ensures t.outcomes[k].ids == Published(t.caches[k])
  {
    assert AnswersAt(ops, t, disablePINCache, k);
  }

  lemma UseAnswers(ops: seq<Operation>, t: Trace, disablePINCache: bool, i: nat, keys: seq<SshKey>)
    requires AnswersAll(ops, t, disablePINCache) && i < |t.caches| && ops[i].Use? && t.Before(i) == Some(keys)
    ensures t.outcomes[i] == Used(SignWith(keys, ops[i].wanted, ops[i].flags, ops[i].providers, disablePINCache))
  {
    assert AnswersAt(ops, t, disablePINCache, i);
  }

  /**
   Listing and signing agree over a run: after a listing, any number of signing requests later and whatever
   became of the store, signing loads nothing and answers from that listing.
   */
  lemma ListingAndSigningAgree(ops: seq<Operation>, t: Trace, disablePINCache: bool, k: nat, i: nat)
    requires AnswersAll(ops, t, disablePINCache) && k < i < |t.caches|
    requires t.outcomes[k].Listed? && t.outcomes[k].ids.Some?
    requires forall j :: k < j <= i ==> ops[j].Use?
    ensures Leaks(ops[i], CachedAfter(ops[..i], Published(t.start))) == 0
    ensures t.caches[k].Some? && t.caches[i] == t.caches[k]
    ensures t.outcomes[i].Used?
    ensures SignsFrom(t.outcomes[k].ids.value, t.caches[k].value, ops[i], disablePINCache, t.outcomes[i].result)
  {
    ListingPublishes(ops, t, disablePINCache, k);
    KeysLast(ops, t, disablePINCache, k, i - 1);
    UseKeeps(ops, t, disablePINCache, i);
    CachesAre(ops, t, disablePINCache, i);
    UseAnswers(ops, t, disablePINCache, i, t.caches[k].value);
    SignWithSignsFrom(t.caches[k].value, ops[i], disablePINCache);
  }
}
