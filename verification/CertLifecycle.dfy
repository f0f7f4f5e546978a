/** What every sequence of certificate requests keeps. */
module CertLifecycle {
  import opened Options
  import opened CertStore

  // --- the invariant ---

  /** A CA row holds a self-signed certificate, the key it was made with and its digest. */
  ghost predicate CaOk(ca: Ca) {
    && ca.cert.Pem? && ca.fingerprint == DigestOf(ca.cert.cert)
    && ca.key == ca.cert.cert.key
  }

  ghost predicate HasCa(db: Db, fp: Fingerprint) {
    exists id :: id in db.cas && db.cas[id].fingerprint == fp
  }

  /** A configuration with a fingerprint holds the certificate of that fingerprint, and a server
      certificate that its key signed. */
  ghost predicate ConfigOk(c: Config) {
    c.fingerprint != NoFingerprint ==>
      && c.caCert == Pem(c.fingerprint.cert)
      && c.serverCert.Pem?
      && c.serverCert.cert.signedWith == c.fingerprint.cert.key
      && c.serverCert.cert.issuer == c.fingerprint.cert.subject
  }

  ghost predicate CasOk(db: Db) {
    && (forall id | id in db.cas :: CaOk(db.cas[id]))
    && (forall id | id in db.cas :: id < db.nextCa)
  }

  ghost predicate ConfigsOk(db: Db) {
    && (forall c | c in db.configs :: ConfigOk(db.configs[c]))
    && (forall c | c in db.configs :: c < db.nextConfig)
  }

  ghost predicate Recorded(rows: seq<Revocation>, p: nat) {
    exists i :: 0 <= i < |rows| && rows[i].profile == p
  }

  ghost predicate ProfilesOk(db: Db) {
    && (forall p | p in db.profiles :: p < db.nextProfile)
    && (forall p | p in db.profiles && db.profiles[p].revoked :: Recorded(db.revocations, p))
    && (forall p, q | p in db.profiles && q in db.profiles && p != q ::
          !(db.profiles[p].user == db.profiles[q].user && db.profiles[p].config == db.profiles[q].config))
  }

  /** User numbers are unique, and no profile belongs to a number that is still free. */
  ghost predicate UsersOk(db: Db) {
    && (forall u | u in db.users :: db.users[u].id < db.nextUser)
    && (forall u, v | u in db.users && v in db.users && u != v :: db.users[u].id != db.users[v].id)
    && (forall p | p in db.profiles :: db.profiles[p].user < db.nextUser)
  }

  ghost predicate Inv(db: Db) {
    CasOk(db) && ConfigsOk(db) && ProfilesOk(db) && UsersOk(db)
  }

  // --- every request keeps it ---

  lemma SignKeepsInv(db: Db, r: Request)
    requires Inv(db) && r.SignServer?
    ensures Inv(ServerSigned(db, r).1)
  {
    var row := if r.ca.Some? then r.ca.value else r.newest;
    if ServerSigned(db, r).1 != db {
      assert CaOk(db.cas[row]);
    }
  }

  lemma UserKeepsInv(db: Db, r: Request)
    requires Inv(db) && r.GenClient?
    ensures Inv(UserStored(db, r)) && r.user in UserStored(db, r).users
  {
  }

  lemma ProfileKeepsInv(db: Db, user: nat, r: Request, cert: Text)
    requires Inv(db) && r.GenClient? && user < db.nextUser
    ensures Inv(ProfileStored(db, user, r, cert))
  {
    var p, t := ProfileOf(db, user, r.config), ProfileStored(db, user, r, cert);
    assert p in db.profiles ==> db.profiles[p].user == user && db.profiles[p].config == r.config;
    forall q | q in t.profiles && t.profiles[q].revoked
      ensures Recorded(t.revocations, q)
    {
      assert q in db.profiles && db.profiles[q].revoked;
    }
  }

  lemma GenClientKeepsInv(db: Db, r: Request)
    requires Inv(db) && r.GenClient?
    ensures Inv(ClientGenerated(db, r).1)
  {
    var cert := ClientCert(db, r);
    if cert.Some? && r.userStored {
      UserKeepsInv(db, r);
      var with := UserStored(db, r);
      ProfileKeepsInv(with, with.users[r.user].id, r, Pem(cert.value));
    }
  }

  lemma RevokeKeepsInv(db: Db, r: Request)
    requires Inv(db) && r.Revoke?
    ensures Inv(Revoked(db, r).1)
  {
    var (ok, t) := Revoked(db, r);
    if ok {
        forall p | p in t.profiles && t.profiles[p].revoked
        ensures Recorded(t.revocations, p)
      {
        if p == r.profile {
          assert t.revocations[|db.revocations|].profile == p;
        } else {
          RecordedLonger(db.revocations, t.revocations, p);
        }
      }
    }
  }

  lemma RecordedLonger(rows: seq<Revocation>, more: seq<Revocation>, p: nat)
    requires Recorded(rows, p) && rows <= more
    ensures Recorded(more, p)
  {
    var i :| 0 <= i < |rows| && rows[i].profile == p;
    assert more[i].profile == p;
  }

  lemma {:induction false} SurvivingKeeps(rows: seq<Revocation>, profiles: map<nat, Profile>, p: nat)
    ensures Recorded(Surviving(rows, profiles), p) <==> p in profiles && Recorded(rows, p)
    decreases |rows|
  {
    if rows != [] {
      var rest := Surviving(rows[1..], profiles);
      SurvivingKeeps(rows[1..], profiles, p);
      assert Recorded(rows, p) <==> rows[0].profile == p || Recorded(rows[1..], p) by {
        RecordedFront(rows, p);
      }
      if rows[0].profile in profiles {
        RecordedFront([rows[0]] + rest, p);
        assert ([rows[0]] + rest)[1..] == rest;
      } else {
        assert Surviving(rows, profiles) == rest;
      }
    }
  }

  lemma RecordedFront(rows: seq<Revocation>, p: nat)
    requires rows != []
    ensures Recorded(rows, p) <==> rows[0].profile == p || Recorded(rows[1..], p)
  {
    if Recorded(rows, p) {
      var i :| 0 <= i < |rows| && rows[i].profile == p;
      if i > 0 {
        assert rows[1..][i - 1].profile == p;
      }
    }
    if Recorded(rows[1..], p) {
      var i :| 0 <= i < |rows[1..]| && rows[1..][i].profile == p;
      assert rows[i + 1].profile == p;
    }
  }

  lemma ConfigDeletedKeepsInv(db: Db, r: Request)
    requires Inv(db) && r.WebDeleteConfig?
    ensures Inv(ConfigDeleted(db, r).1)
  {
    var t := ConfigDeleted(db, r).1;
    forall p | p in t.profiles && t.profiles[p].revoked
      ensures Recorded(t.revocations, p)
    {
      SurvivingKeeps(db.revocations, t.profiles, p);
    }
  }

  /** A configuration comes with its certificates and without a fingerprint. */
  lemma ConfigComes(db: Db, r: Request) returns (id: int)
    requires Inv(db) && r.WebAddConfig?
    ensures var t := Apply(db, r).1;
      && id !in db.configs && t.configs == db.configs[id := Config(r.caCert, NoFingerprint, r.serverCert)]
      && t.cas == db.cas && t.users == db.users && t.profiles == db.profiles && t.revocations == db.revocations
  {
    id := db.nextConfig;
  }

  /** It goes with its profiles and their revocations, and nothing else does. */
  lemma ConfigGoes(db: Db, r: Request)
    requires r.WebDeleteConfig?
    ensures var t := Apply(db, r).1;
      && t.configs == db.configs - {r.config} && t.cas == db.cas && t.users == db.users
      && (forall p :: p in t.profiles <==> p in db.profiles && db.profiles[p].config != r.config)
      && (forall p | p in t.profiles :: t.profiles[p] == db.profiles[p])
      && (forall v :: multiset(t.revocations)[v] == if v.profile in t.profiles then multiset(db.revocations)[v] else 0)
  {
    var t := Apply(db, r).1;
    forall v
      ensures multiset(t.revocations)[v] == if v.profile in t.profiles then multiset(db.revocations)[v] else 0
    {
      SurvivingAreOfProfiles(db.revocations, t.profiles, v);
    }
  }

  lemma {:induction false} SurvivingAreOfProfiles(rows: seq<Revocation>, profiles: map<nat, Profile>, v: Revocation)
    ensures multiset(Surviving(rows, profiles))[v] == if v.profile in profiles then multiset(rows)[v] else 0
    decreases |rows|
  {
    if rows != [] {
      SurvivingAreOfProfiles(rows[1..], profiles, v);
      assert rows == [rows[0]] + rows[1..];
    }
  }

  lemma RequestKeepsInv(db: Db, r: Request)
    requires Inv(db)
    ensures Inv(Apply(db, r).1)
  {
    if r.SignServer? {
      SignKeepsInv(db, r);
    } else if r.GenClient? {
      GenClientKeepsInv(db, r);
    } else if r.Revoke? {
      RevokeKeepsInv(db, r);
    } else if r.WebDeleteConfig? {
      ConfigDeletedKeepsInv(db, r);
    }
  }

  // --- whether fingerprints resolve ---

  /** Every configuration with a fingerprint refers to an existing CA. */
  ghost predicate Resolves(db: Db) {
    forall c | c in db.configs && db.configs[c].fingerprint != NoFingerprint :: HasCa(db, db.configs[c].fingerprint)
  }

  /** Another row has the fingerprint of this one. */
  ghost predicate HasTwin(db: Db, id: int)
    requires id in db.cas
  {
    exists other :: other in db.cas && other != id && db.cas[other].fingerprint == db.cas[id].fingerprint
  }

  /** A deletion that goes through although a configuration uses the CA, because the query for
      references failed. */
  ghost predicate Loses(db: Db, r: Request) {
    && r.DeleteCa? && r.found && r.id in db.cas && !r.checked && r.decrypted && r.deleted
    && Referenced(db, db.cas[r.id].fingerprint) && !HasTwin(db, r.id)
  }

  lemma HasCaAt(db: Db, id: int)
    requires id in db.cas
    ensures HasCa(db, db.cas[id].fingerprint)
  {
  }

  /** Rows that stay keep their fingerprints resolved. */
  lemma CasGrow(db: Db, t: Db)
    requires forall id | id in db.cas :: id in t.cas && t.cas[id] == db.cas[id]
    ensures forall fp | HasCa(db, fp) :: HasCa(t, fp)
  {
    forall fp | HasCa(db, fp)
      ensures HasCa(t, fp)
    {
      var id :| id in db.cas && db.cas[id].fingerprint == fp;
      HasCaAt(t, id);
    }
  }

  lemma OtherRequestsKeepResolving(db: Db, r: Request)
    requires Inv(db) && Resolves(db) && !r.DeleteCa?
    ensures Resolves(Apply(db, r).1)
  {
    var t := Apply(db, r).1;
    CasGrow(db, t);
    if r.SignServer? && t != db {
      var row := if r.ca.Some? then r.ca.value else r.newest;
      assert CaOk(db.cas[row]);
      HasCaAt(t, row);
    }
  }

  lemma DeletionResolvesIff(db: Db, r: Request)
    requires Inv(db) && Resolves(db) && r.DeleteCa?
    ensures Resolves(CaDeleted(db, r).1) <==> !Loses(db, r)
  {
    var (ok, t) := CaDeleted(db, r);
    if ok {
      var fp := db.cas[r.id].fingerprint;
      assert CaOk(db.cas[r.id]);
      assert HasCa(t, fp) <==> HasTwin(db, r.id) by {
        TwinRemains(db, r.id);
      }
      forall other | HasCa(db, other) && other != fp
        ensures HasCa(t, other)
      {
        var id :| id in db.cas && db.cas[id].fingerprint == other;
        HasCaAt(t, id);
      }
      if Referenced(db, fp) {
        var c :| c in db.configs && db.configs[c].fingerprint == fp;
        assert Resolves(t) ==> HasCa(t, t.configs[c].fingerprint);
      }
    }
  }

  lemma TwinRemains(db: Db, id: int)
    requires id in db.cas
    ensures HasCa(db.(cas := db.cas - {id}), db.cas[id].fingerprint) <==> HasTwin(db, id)
  {
    var t, fp := db.(cas := db.cas - {id}), db.cas[id].fingerprint;
    if HasCa(t, fp) {
      var other :| other in t.cas && t.cas[other].fingerprint == fp;
      assert other in db.cas && other != id;
    }
    if HasTwin(db, id) {
      var other :| other in db.cas && other != id && db.cas[other].fingerprint == fp;
      HasCaAt(t, other);
    }
  }

  /** A request keeps every fingerprint resolved exactly when it is not such a deletion. */
  lemma RequestResolvesIff(db: Db, r: Request)
    requires Inv(db) && Resolves(db)
    ensures Resolves(Apply(db, r).1) <==> !Loses(db, r)
  {
    if r.DeleteCa? {
      DeletionResolvesIff(db, r);
    } else {
      OtherRequestsKeepResolving(db, r);
    }
  }

  // --- runs ---

  ghost predicate IsRun(db: Db, rs: seq<Request>, t: Db)
    decreases |rs|
  {
    if rs == [] then db == t
    else Possible(db, rs[0]) && IsRun(Apply(db, rs[0]).1, rs[1..], t)
  }

  lemma {:induction false} RunKeepsInv(db: Db, rs: seq<Request>, t: Db)
    requires Inv(db) && IsRun(db, rs, t)
    ensures Inv(t)
    decreases |rs|
  {
    if rs != [] {
      RequestKeepsInv(db, rs[0]);
      RunKeepsInv(Apply(db, rs[0]).1, rs[1..], t);
    }
  }

  ghost predicate ResolvesThroughout(db: Db, rs: seq<Request>)
    decreases |rs|
  {
    Resolves(db) && (rs == [] || ResolvesThroughout(Apply(db, rs[0]).1, rs[1..]))
  }

  ghost predicate NoneLoses(db: Db, rs: seq<Request>)
    decreases |rs|
  {
    rs == [] || (!Loses(db, rs[0]) && NoneLoses(Apply(db, rs[0]).1, rs[1..]))
  }

  /** Over any run every fingerprint resolves all the time exactly when no deletion loses its
      CA. */
  lemma {:induction false} ResolvesThroughoutIff(db: Db, rs: seq<Request>)
    requires Inv(db) && Resolves(db)
    ensures ResolvesThroughout(db, rs) <==> NoneLoses(db, rs)
    decreases |rs|
  {
    if rs != [] {
      RequestKeepsInv(db, rs[0]);
      RequestResolvesIff(db, rs[0]);
      if !Loses(db, rs[0]) {
        ResolvesThroughoutIff(Apply(db, rs[0]).1, rs[1..]);
      } else {
        assert !ResolvesThroughout(Apply(db, rs[0]).1, rs[1..]);
      }
    }
  }

  lemma {:induction false} ResolvesAtTheEnd(db: Db, rs: seq<Request>, t: Db)
    requires IsRun(db, rs, t) && ResolvesThroughout(db, rs)
    ensures Resolves(t)
    decreases |rs|
  {
    if rs != [] {
      ResolvesAtTheEnd(Apply(db, rs[0]).1, rs[1..], t);
    }
  }

  /** In every reachable state a configuration with a fingerprint holds the certificate of that
      fingerprint and a server certificate signed by it, and every CA with the fingerprint has
      that certificate and its key; and unless a deletion lost it, such a CA exists. */
  lemma FingerprintsResolve(rs: seq<Request>, t: Db, c: int)
    requires IsRun(EMPTY_DB, rs, t) && c in t.configs && t.configs[c].fingerprint != NoFingerprint
    ensures var fp := t.configs[c].fingerprint;
      && t.configs[c].caCert == Pem(fp.cert)
      && (forall id | id in t.cas && t.cas[id].fingerprint == fp :: t.cas[id].cert == Pem(fp.cert) && t.cas[id].key == fp.cert.key)
      && t.configs[c].serverCert.Pem? && t.configs[c].serverCert.cert.signedWith == fp.cert.key
      && (NoneLoses(EMPTY_DB, rs) ==> HasCa(t, fp))
  {
    RunKeepsInv(EMPTY_DB, rs, t);
    ResolvesThroughoutIff(EMPTY_DB, rs);
    if NoneLoses(EMPTY_DB, rs) {
      ResolvesAtTheEnd(EMPTY_DB, rs, t);
    }
    assert ConfigOk(t.configs[c]);
    forall id | id in t.cas && t.cas[id].fingerprint == t.configs[c].fingerprint
      ensures t.cas[id].cert == Pem(t.configs[c].fingerprint.cert) && t.cas[id].key == t.configs[c].fingerprint.cert.key
    {
      assert CaOk(t.cas[id]);
    }
  }

  /** A CA, a configuration that it signs, and a deletion whose query for references fails. */
  function LosingRun(key: Key, serverKey: Key): seq<Request> {
    [GenerateCa("ca", key, 1, 0, true, true)] + ([WebAddConfig(Short, Short)]
    + ([SignServer(0, Some(0), 0, "server", serverKey, 2, true, true, true, true)]
    + [DeleteCa(0, true, false, true, true)]))
  }

  lemma PrependRequest(db: Db, r: Request, rest: seq<Request>, t: Db)
    requires Possible(db, r) && IsRun(Apply(db, r).1, rest, t)
    ensures IsRun(db, [r] + rest, t)
  {
    assert ([r] + rest)[1..] == rest;
  }

  /** The configuration is left with a fingerprint that belongs to no CA. */
  lemma FailedCheckLosesCa(key: Key, serverKey: Key) returns (t: Db)
    ensures IsRun(EMPTY_DB, LosingRun(key, serverKey), t)
    ensures 0 in t.configs && t.configs[0].fingerprint != NoFingerprint && !HasCa(t, t.configs[0].fingerprint)
  {
    var r1, r2 := GenerateCa("ca", key, 1, 0, true, true), WebAddConfig(Short, Short);
    var r3, r4 := SignServer(0, Some(0), 0, "server", serverKey, 2, true, true, true, true), DeleteCa(0, true, false, true, true);
    var s1 := Apply(EMPTY_DB, r1).1;
    var s2 := Apply(s1, r2).1;
    var s3 := Apply(s2, r3).1;
    t := Apply(s3, r4).1;
    assert IsRun(t, [], t);
    PrependRequest(s3, r4, [], t);
    assert [r4] + [] == [r4];
    PrependRequest(s2, r3, [r4], t);
    PrependRequest(s1, r2, [r3] + [r4], t);
    PrependRequest(EMPTY_DB, r1, [r2] + ([r3] + [r4]), t);
  }

  /** A client certificate is only ever issued with the key that belongs to the certificate
      used as issuer, which is the one that signed the server's; the row that the key query
      returns does not matter. */
  lemma ClientsAreSignedByTheirIssuer(t: Db, r: Request)
    requires Inv(t) && r.GenClient? && Possible(t, r) && ClientCert(t, r).Some?
    ensures r.config in t.configs && IssuerText(t, r).Pem?
    ensures var cert, issuer := ClientCert(t, r).value, IssuerText(t, r).cert;
      && cert.signedWith == issuer.key && cert.issuer == issuer.subject && cert.key == r.key
      && IssuerText(t, r) == t.configs[r.config].caCert
      && t.configs[r.config].serverCert.Pem?
      && t.configs[r.config].serverCert.cert.signedWith == cert.signedWith
  {
    assert ConfigOk(t.configs[r.config]);
    assert CaOk(t.cas[r.keyRow]);
  }

  /** The request signs a certificate exactly when its queries succeed, the configuration
      exists and has a fingerprint, a CA has that fingerprint, and OpenSSL does its part; the
      look-up for a configuration without a certificate never helps. */
  lemma ClientIsSignedWhen(t: Db, r: Request)
    requires Inv(t) && r.GenClient? && Possible(t, r)
    ensures ClientCert(t, r).Some? <==>
      && r.found && r.keyed && r.openssl
      && r.config in t.configs && t.configs[r.config].fingerprint != NoFingerprint
      && HasCa(t, t.configs[r.config].fingerprint)
    ensures r.config in t.configs && t.configs[r.config].caCert.Short? ==> ClientCert(t, r).None?
  {
    if r.config in t.configs {
      var c := t.configs[r.config];
      assert ConfigOk(c);
      if c.fingerprint != NoFingerprint && HasCa(t, c.fingerprint) {
        var id :| id in t.cas && t.cas[id].fingerprint == c.fingerprint;
        assert Selects(t, c.fingerprint, r.keyRow);
      }
      if ClientCert(t, r).Some? {
        HasCaAt(t, r.keyRow);
      }
    }
  }

  /** The configuration uses the CA: it holds its certificate, and a fingerprint. */
  ghost predicate Uses(c: Config, ca: Ca) {
    c.caCert == ca.cert && c.fingerprint != NoFingerprint
  }

  ghost predicate InUse(t: Db, ca: Ca) {
    exists c :: c in t.configs && Uses(t.configs[c], ca)
  }

  /** A CA is deleted exactly when it is found, is not found to be in use, and the rest
      succeeds. */
  lemma CaIsDeletedWhen(t: Db, r: Request)
    requires Inv(t) && r.DeleteCa?
    ensures CaDeleted(t, r).0 <==>
      r.found && r.id in t.cas && !(r.checked && InUse(t, t.cas[r.id])) && r.decrypted && r.deleted
  {
    if r.id in t.cas {
      var ca := t.cas[r.id];
      assert CaOk(ca);
      forall c | c in t.configs
        ensures t.configs[c].fingerprint == ca.fingerprint <==> Uses(t.configs[c], ca)
      {
        assert ConfigOk(t.configs[c]);
      }
    }
  }

  // --- what is issued and where it is kept ---

  /** A certificate for the name, key and serial number of a request, signed by the CA. */
  ghost predicate IsFor(cert: Certificate, name: string, key: Key, serial: nat, ca: Certificate, caKey: Key) {
    && cert.subject == name && cert.key == key && cert.serial == serial
    && cert.issuer == ca.subject && cert.signedWith == caKey
  }

  /** The profile of the request's user and configuration holds the certificate and its key. A
      new profile has the address of the request and is not revoked; in one that was there
      before, address and revocation are as they were. */
  ghost predicate IsKept(db: Db, t: Db, r: Request, cert: Certificate, p: nat)
    requires r.GenClient?
  {
    && r.user in t.users && p in t.profiles
    && t.profiles[p].user == t.users[r.user].id && t.profiles[p].config == r.config
    && t.profiles[p].cert == Pem(cert) && t.profiles[p].key == r.key
    && (p in db.profiles ==>
          t.profiles[p].address == db.profiles[p].address && t.profiles[p].revoked == db.profiles[p].revoked)
    && (p !in db.profiles ==> t.profiles[p].address == r.address && !t.profiles[p].revoked)
    && (forall q | q in db.profiles && q != p :: q in t.profiles && t.profiles[q] == db.profiles[q])
    && (forall q | q in t.profiles && q != p :: q in db.profiles)
  }

  /** The user of the request is there, with the email of the request; a known user keeps
      number and name, and no other user changes. */
  ghost predicate UserIsKept(db: Db, t: Db, r: Request)
    requires r.GenClient?
  {
    && r.user in t.users && t.users[r.user].email == r.email
    && (r.user in db.users ==>
          t.users[r.user].id == db.users[r.user].id && t.users[r.user].clientName == db.users[r.user].clientName)
    && (r.user !in db.users ==> t.users[r.user].clientName == r.clientName)
    && (r.user !in db.users ==> forall p | p in db.profiles :: db.profiles[p].user != t.users[r.user].id)
    && (forall u | u in db.users && u != r.user :: u in t.users && t.users[u] == db.users[u])
    && (forall u | u in t.users && u != r.user :: u in db.users)
  }

  lemma ClientIsRecorded(db: Db, r: Request) returns (p: nat)
    requires Inv(db) && r.GenClient? && ClientGenerated(db, r).0
    ensures IsKept(db, ClientGenerated(db, r).1, r, ClientCert(db, r).value, p)
    ensures UserIsKept(db, ClientGenerated(db, r).1, r)
  {
    var with := UserStored(db, r);
    p := ProfileOf(with, with.users[r.user].id, r.config);
  }

  // --- revocation ---

  /** A profile that is still there is still the same user's, and revoked if it was. */
  ghost predicate Lasts(s: Db, t: Db, p: nat) {
    p in s.profiles && p in t.profiles ==>
      && t.profiles[p].user == s.profiles[p].user && t.profiles[p].config == s.profiles[p].config
      && (s.profiles[p].revoked ==> t.profiles[p].revoked)
  }

  ghost predicate AllLast(s: Db, t: Db) {
    && s.nextProfile <= t.nextProfile
    && (forall p :: Lasts(s, t, p))
    && (forall p | p in t.profiles :: p in s.profiles || s.nextProfile <= p)
  }

  lemma GenClientLasts(db: Db, r: Request)
    requires Inv(db) && r.GenClient?
    ensures AllLast(db, ClientGenerated(db, r).1)
  {
    if ClientCert(db, r).Some? && r.userStored {
      var with := UserStored(db, r);
      var t := ProfileStored(with, with.users[r.user].id, r, Pem(ClientCert(db, r).value));
      assert db.nextProfile <= t.nextProfile;
    }
  }

  lemma RequestLasts(db: Db, r: Request)
    requires Inv(db)
    ensures AllLast(db, Apply(db, r).1)
  {
    if r.GenClient? {
      GenClientLasts(db, r);
    } else if r.Revoke? {
      assert AllLast(db, Revoked(db, r).1);
    } else if r.WebDeleteConfig? {
      assert AllLast(db, ConfigDeleted(db, r).1);
    } else {
      assert Apply(db, r).1.profiles == db.profiles;
    }
  }

  /** Numbers of deleted profiles do not come back, so a revoked profile is revoked for good:
      at any later moment it is gone or still marked, and then it has a revocation row. */
  lemma {:induction false} RevocationLasts(s: Db, rs: seq<Request>, t: Db, p: nat)
    requires Inv(s) && IsRun(s, rs, t) && p < s.nextProfile
    ensures p !in s.profiles ==> p !in t.profiles
    ensures Lasts(s, t, p)
    ensures p in t.profiles && t.profiles[p].revoked ==> Recorded(t.revocations, p)
    decreases |rs|
  {
    if rs != [] {
      var u := Apply(s, rs[0]).1;
      RequestLasts(s, rs[0]);
      assert Lasts(s, u, p);
      RequestKeepsInv(s, rs[0]);
      RevocationLasts(u, rs[1..], t, p);
    }
  }

  /** Issuing again replaces the certificate and key of the same profile and the email of its
      user, and nothing else. */
  lemma ReissueKeepsProfile(t: Db, r: Request, p: nat)
    requires Inv(t) && r.GenClient? && ClientGenerated(t, r).0
    requires p in t.profiles && t.profiles[p].config == r.config
    requires r.user in t.users && t.users[r.user].id == t.profiles[p].user
    ensures ClientGenerated(t, r).1
      == t.(profiles := t.profiles[p := t.profiles[p].(cert := Pem(ClientCert(t, r).value), key := r.key)],
            users := t.users[r.user := t.users[r.user].(email := r.email)])
  {
    var with := UserStored(t, r);
    var q := ProfileOf(with, t.users[r.user].id, r.config);
    assert p < t.nextProfile;
    assert q == p;
  }
}
