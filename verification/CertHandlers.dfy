/** The certificate requests as the handlers carry them out, on tables that they update
    (master/ca_handler.c:20-282, 334-412, master/client_handler.c:19-263, 335-404). Every
    handler keeps the invariant of the tables. */
module CertHandlers {
  import opened Options
  import opened CertStore
  import opened CertLifecycle

  class Server {
    var cas: map<int, Ca>
    var configs: map<int, Config>
    var users: map<string, User>
    var profiles: map<nat, Profile>
    var revocations: seq<Revocation>
    var nextCa: int
    var nextConfig: int
    var nextUser: nat
    var nextProfile: nat

    ghost function Tables(): Db
      reads this
    {
      Db(cas, configs, users, profiles, revocations, nextCa, nextConfig, nextUser, nextProfile)
    }

    ghost predicate Valid()
      reads this
    {
      Inv(Tables())
    }

    constructor ()
      ensures Valid() && Tables() == EMPTY_DB
    {
      cas, configs, users, profiles, revocations := map[], map[], map[], map[], [];
      nextCa, nextConfig, nextUser, nextProfile := 0, 0, 0, 0;
    }

    /** A new CA is self-signed, with its own key and digest, and no other row is touched. */
    method HandleGenerateCaCert(r: Request) returns (ok: bool)
      requires Valid() && r.GenerateCa?
      modifies this`cas, this`nextCa
      ensures Valid() && (ok, Tables()) == Apply(old(Tables()), r)
      ensures ok <==> r.openssl && r.inserted
      ensures cas.Keys == old(cas).Keys + if ok then {old(nextCa)} else {}
      ensures ok ==> old(nextCa) !in old(cas)
      ensures ok ==> CaOk(cas[old(nextCa)]) && cas[old(nextCa)].key == r.key && cas[old(nextCa)].created == r.created
      ensures ok ==> IsFor(cas[old(nextCa)].cert.cert, r.name, r.key, r.serial, cas[old(nextCa)].cert.cert, r.key)
      ensures forall id | id in old(cas) :: id in cas && cas[id] == old(cas)[id]
    {
      RequestKeepsInv(Tables(), r);
      if !r.openssl {
        return false;
      }
      var cert := Certificate(r.serial, r.name, r.key, r.name, r.key);
      if !r.inserted {
        return false;
      }
      cas := cas[nextCa := Ca(Pem(cert), r.key, DigestOf(cert), r.created)];
      nextCa := nextCa + 1;
      ok := true;
    }

    /** What a signed configuration holds: the certificate of the CA, its fingerprint unless the
        digest failed, and a server certificate for the requested name that this CA signed. */
    ghost predicate SignedBy(c: Config, ca: Ca, r: Request)
      requires r.SignServer?
    {
      && c.caCert == ca.cert && c.fingerprint == (if r.digest then ca.fingerprint else NoFingerprint)
      && c.serverCert.Pem? && ca.cert.Pem?
      && IsFor(c.serverCert.cert, r.name, r.key, r.serial, ca.cert.cert, ca.key)
    }

    /** Signing takes the CA of the request or the newest one; success is also reported for a
        configuration that does not exist. */
    method HandleSignServerCert(r: Request) returns (ok: bool)
      requires Valid() && r.SignServer? && Possible(Tables(), r)
      modifies this`configs
      ensures Valid() && (ok, Tables()) == Apply(old(Tables()), r)
      ensures ok <==> r.found && (if r.ca.Some? then r.ca.value else r.newest) in cas && r.openssl && r.updated
      ensures ok && r.config in configs ==>
        SignedBy(configs[r.config], cas[if r.ca.Some? then r.ca.value else r.newest], r)
      ensures configs.Keys == old(configs).Keys
      ensures forall c | c in configs && (c != r.config || !ok) :: configs[c] == old(configs)[c]
    {
      RequestKeepsInv(Tables(), r);
      var row := r.newest;
      if r.ca.Some? {
        row := r.ca.value;
      }
      if !r.found || row !in cas {
        return false;
      }
      assert CaOk(cas[row]);
      var caText, caKey := cas[row].cert, cas[row].key;
      if !caText.Pem? || !r.openssl {
        return false;
      }
      var server := SignCertificate(caKey, caText.cert, r.key, r.name, r.serial);
      var fp := NoFingerprint;
      if r.digest {
        fp := DigestOf(caText.cert);
      }
      if !r.updated {
        return false;
      }
      if r.config in configs {
        configs := configs[r.config := Config(caText, fp, Pem(server))];
      }
      ok := true;
    }

    /** A CA goes exactly when it is found and not found to be in use. If every fingerprint
        resolved before, every one does afterwards, exactly unless the query for references
        failed on the only CA of a configuration. */
    method HandleDeleteCaCert(r: Request) returns (ok: bool)
      requires Valid() && r.DeleteCa?
      modifies this`cas
      ensures Valid() && (ok, Tables()) == Apply(old(Tables()), r)
      ensures ok <==> (r.found && r.id in old(cas) && !(r.checked && InUse(old(Tables()), old(cas)[r.id]))
        && r.decrypted && r.deleted)
      ensures Resolves(old(Tables())) ==> (Resolves(Tables()) <==> !Loses(old(Tables()), r))
      ensures cas == if ok then old(cas) - {r.id} else old(cas)
    {
      CaIsDeletedWhen(Tables(), r);
      RequestKeepsInv(Tables(), r);
      if Resolves(Tables()) {
        RequestResolvesIff(Tables(), r);
      }
      if !r.found || r.id !in cas {
        return false;
      }
      var fp := cas[r.id].fingerprint;
      if fp == NoFingerprint {
        return false;
      }
      var referenced := false;
      if r.checked {
        referenced := exists c | c in configs :: configs[c].fingerprint == fp;
      }
      if referenced {
        return false;
      }
      if !r.decrypted || !r.deleted {
        return false;
      }
      cas := cas - {r.id};
      ok := true;
    }

    /** The profile table is searched by its unique pair of columns. */
    method FindRow(user: nat, config: int) returns (p: nat)
      requires Valid()
      ensures p == ProfileOf(Tables(), user, config)
      ensures p in profiles ==> profiles[p].user == user && profiles[p].config == config
      ensures p !in profiles ==> p == nextProfile
      ensures p !in profiles ==> forall q | q in profiles :: !(profiles[q].user == user && profiles[q].config == config)
    {
      ghost var found := ProfileOf(Tables(), user, config);
      p := 0;
      while p < nextProfile
        invariant p <= nextProfile
        invariant found == FindProfile(profiles, user, config, nextProfile, p)
        invariant forall q | q in profiles && q < p :: !(profiles[q].user == user && profiles[q].config == config)
      {
        if p in profiles && profiles[p].user == user && profiles[p].config == config {
          return;
        }
        p := p + 1;
      }
    }

    /** The certificate of the configuration, or one looked up by its fingerprint. */
    method FindIssuer(r: Request) returns (caText: Text)
      requires r.GenClient? && r.config in configs
      ensures caText == IssuerText(Tables(), r)
    {
      caText := configs[r.config].caCert;
      if caText.Short? {
        var fp := configs[r.config].fingerprint;
        if r.joined && fp != NoFingerprint && r.certRow in cas && cas[r.certRow].fingerprint == fp {
          caText := cas[r.certRow].cert;
        }
      }
    }

    /** Whatever is issued is issued to the requested name and signed with the key of the
        certificate that is its issuer, the one the configuration holds, and is kept in the profile; it is issued exactly when the configuration has a fingerprint
        that resolves, and the statements succeed. */
    method HandleGenClientCert(r: Request) returns (ok: bool, issued: Option<Certificate>)
      requires Valid() && r.GenClient? && Possible(Tables(), r)
      modifies this`users, this`nextUser, this`profiles, this`nextProfile
      ensures Valid() && (ok, Tables()) == Apply(old(Tables()), r)
      ensures ok <==> (r.config in configs && configs[r.config].fingerprint != NoFingerprint
        && HasCa(Tables(), configs[r.config].fingerprint)
        && r.found && r.keyed && r.openssl && r.userStored && r.profileStored)
      ensures ok <==> issued.Some?
      ensures ok ==> configs[r.config].caCert.Pem? && IsFor(issued.value, r.name, r.key, r.serial,
        configs[r.config].caCert.cert, configs[r.config].caCert.cert.key)
      ensures ok ==> UserIsKept(old(Tables()), Tables(), r)
      ensures ok ==> exists p :: IsKept(old(Tables()), Tables(), r, issued.value, p)
    {
      RequestKeepsInv(Tables(), r);
      ClientIsSignedWhen(Tables(), r);
      if ClientGenerated(Tables(), r).0 {
        ClientsAreSignedByTheirIssuer(Tables(), r);
        var p := ClientIsRecorded(Tables(), r);
      }
      ok, issued := Issue(r);
    }

    /** The steps of the handler, with its early returns. */
    method Issue(r: Request) returns (ok: bool, issued: Option<Certificate>)
      requires Valid() && r.GenClient?
      modifies this`users, this`nextUser, this`profiles, this`nextProfile
      ensures (ok, Tables()) == ClientGenerated(old(Tables()), r)
      ensures issued == if ok then ClientCert(old(Tables()), r) else None
    {
      issued := None;
      if !r.found || r.config !in configs {
        return false, None;
      }
      var caText := FindIssuer(r);
      var fp := configs[r.config].fingerprint;
      if !r.keyed || fp == NoFingerprint || r.keyRow !in cas || cas[r.keyRow].fingerprint != fp {
        return false, None;
      }
      if !caText.Pem? || !r.openssl {
        return false, None;
      }
      var cert := SignCertificate(cas[r.keyRow].key, caText.cert, r.key, r.name, r.serial);
      if !r.userStored {
        return false, None;
      }
      UserKeepsInv(Tables(), r);
      var userId := StoreUser(r);
      if !r.profileStored {
        return false, None;
      }
      StoreProfile(userId, Pem(cert), r);
      ok, issued := true, Some(cert);
    }

    /** The upsert of the user. */
    method StoreUser(r: Request) returns (id: nat)
      requires r.GenClient?
      modifies this`users, this`nextUser
      ensures Tables() == UserStored(old(Tables()), r)
      ensures r.user in users && id == users[r.user].id && users[r.user].email == r.email
    {
      if r.user in users {
        users := users[r.user := users[r.user].(email := r.email)];
      } else {
        users := users[r.user := User(nextUser, r.email, r.clientName)];
        nextUser := nextUser + 1;
      }
      id := users[r.user].id;
    }

    /** The upsert of the profile: revoked stays revoked. */
    method StoreProfile(user: nat, cert: Text, r: Request)
      requires Valid() && r.GenClient? && user < nextUser
      modifies this`profiles, this`nextProfile
      ensures Valid() && Tables() == ProfileStored(old(Tables()), user, r, cert)
      ensures forall p | p in old(profiles) :: p in profiles && profiles[p].revoked == old(profiles)[p].revoked
    {
      ProfileKeepsInv(Tables(), user, r, cert);
      var p := FindRow(user, r.config);
      if p in profiles {
        profiles := profiles[p := profiles[p].(cert := cert, key := r.key)];
      } else {
        profiles := profiles[p := Profile(user, r.config, r.address, cert, r.key, false)];
        nextProfile := p + 1;
      }
    }

    /** A revocation that is reported is recorded, with the serial number of the certificate
        that the profile holds. The result of the last statement is not looked at: the profile
        is marked exactly when that succeeds, or it was marked before. */
    method HandleRevokeClientCert(r: Request) returns (ok: bool)
      requires Valid() && r.Revoke?
      modifies this`revocations, this`profiles
      ensures Valid() && (ok, Tables()) == Apply(old(Tables()), r)
      ensures ok <==> r.found && r.profile in old(profiles) && r.recorded
      ensures ok ==> Recorded(revocations, r.profile) && old(revocations) <= revocations
      ensures ok ==> r.profile in profiles && |revocations| == |old(revocations)| + 1
      ensures ok ==> revocations[|old(revocations)|] == Revocation(r.profile, SerialOf(profiles[r.profile].cert))
      ensures ok ==> (profiles[r.profile].revoked <==> r.flagged || old(profiles)[r.profile].revoked)
    {
      RequestKeepsInv(Tables(), r);
      if !r.found || r.profile !in profiles {
        return false;
      }
      var serial: Option<nat> := None;
      var cert := profiles[r.profile].cert;
      if cert.Pem? {
        serial := Some(cert.cert.serial);
      }
      if !r.recorded {
        return false;
      }
      revocations := revocations + [Revocation(r.profile, serial)];
      assert revocations[|revocations| - 1].profile == r.profile;
      if r.flagged {
        profiles := profiles[r.profile := profiles[r.profile].(revoked := true)];
      }
      ok := true;
    }
  }
}
