/** The certificate tables and the requests that change them (master/ca_handler.c:20-282,
    334-412, master/client_handler.c:19-263, 335-404, master/cert_utils.c:27-58). Keys and
    certificates are abstract; each request is one atomic step over the tables. */
module CertStore {
  import opened Options

  /** Keys are numbered; a private key and its public half carry the same number. */
  type Key = nat

  datatype Certificate = Certificate(serial: nat, subject: string, key: Key, issuer: string, signedWith: Key)

  /** The text of a certificate column: less than 100 characters (or NULL), a longer text
      that is no certificate, or a PEM certificate. */
  datatype Text = Short | Garbage | Pem(cert: Certificate)

  /** A SHA-256 digest, taken to be injective, or an empty or NULL column. */
  datatype Fingerprint = NoFingerprint | DigestOf(cert: Certificate)

  datatype Ca = Ca(cert: Text, key: Key, fingerprint: Fingerprint, created: int)

  datatype Config = Config(caCert: Text, fingerprint: Fingerprint, serverCert: Text)

  datatype User = User(id: nat, email: string, clientName: string)

  /** An empty address is no address, and then none is fixed. */
  datatype Profile = Profile(user: nat, config: int, address: string, cert: Text, key: Key, revoked: bool)

  /** `serial` is absent for a certificate that could not be read ("unknown"). */
  datatype Revocation = Revocation(profile: nat, serial: Option<nat>)

  datatype Db = Db(
    cas: map<int, Ca>, configs: map<int, Config>, users: map<string, User>,
    profiles: map<nat, Profile>, revocations: seq<Revocation>,
    nextCa: int, nextConfig: int, nextUser: nat, nextProfile: nat)

  const EMPTY_DB: Db := Db(map[], map[], map[], map[], [], 0, 0, 0, 0)

  /** `sign_certificate` */
  function SignCertificate(caKey: Key, caCert: Certificate, key: Key, subject: string, serial: nat): Certificate {
    Certificate(serial, subject, key, caCert.subject, caKey)
  }

  /** Some row with this fingerprint is returned if there is one; NULL matches nothing. */
  ghost predicate Selects(db: Db, fp: Fingerprint, pick: int) {
    forall id | id in db.cas && fp != NoFingerprint && db.cas[id].fingerprint == fp ::
      pick in db.cas && db.cas[pick].fingerprint == fp
  }

  predicate IsHit(db: Db, fp: Fingerprint, pick: int) {
    fp != NoFingerprint && pick in db.cas && db.cas[pick].fingerprint == fp
  }

  /** `ORDER BY created_at DESC LIMIT 1` */
  ghost predicate SelectsNewest(db: Db, pick: int) {
    (forall id | id in db.cas :: pick in db.cas)
    && (pick in db.cas ==> forall id | id in db.cas :: db.cas[id].created <= db.cas[pick].created)
  }

  // --- requests, with what the outside world answers ---

  /** `found` tells whether the first query succeeds; when it fails the request is refused, like
      one for a row that is not there. `checked` tells whether the query for references
      succeeds, which when it fails counts as finding none; `joined` and `keyed` whether the
      look-up of a missing certificate and that of the key succeed. */
  datatype Request =
    | GenerateCa(name: string, key: Key, serial: nat, created: int, openssl: bool, inserted: bool)
    | SignServer(config: int, ca: Option<int>, newest: int, name: string, key: Key, serial: nat,
                 found: bool, openssl: bool, digest: bool, updated: bool)
    | DeleteCa(id: int, found: bool, checked: bool, decrypted: bool, deleted: bool)
    | GenClient(user: string, email: string, clientName: string, config: int, address: string,
                name: string, key: Key, serial: nat, certRow: int, keyRow: int,
                found: bool, joined: bool, keyed: bool, openssl: bool, userStored: bool, profileStored: bool)
    | Revoke(profile: nat, found: bool, recorded: bool, flagged: bool)
    | WebAddConfig(caCert: Text, serverCert: Text)
    | WebDeleteConfig(config: int)

  /** What a query may answer. */
  ghost predicate Possible(db: Db, r: Request) {
    && (r.SignServer? ==> SelectsNewest(db, r.newest))
    && (r.GenClient? && r.config in db.configs ==>
          && Selects(db, db.configs[r.config].fingerprint, r.certRow)
          && Selects(db, db.configs[r.config].fingerprint, r.keyRow))
  }

  // --- the effect of each request; the flag is the status of the response ---

  function CaGenerated(db: Db, r: Request): (bool, Db)
    requires r.GenerateCa?
  {
    if !r.openssl || !r.inserted then (false, db)
    else
      var cert := Certificate(r.serial, r.name, r.key, r.name, r.key);
      (true, db.(cas := db.cas[db.nextCa := Ca(Pem(cert), r.key, DigestOf(cert), r.created)], nextCa := db.nextCa + 1))
  }

  function ServerSigned(db: Db, r: Request): (bool, Db)
    requires r.SignServer?
  {
    var row := if r.ca.Some? then r.ca.value else r.newest;
    if !r.found || row !in db.cas || !db.cas[row].cert.Pem? || !r.openssl || !r.updated then (false, db)
    else if r.config !in db.configs then (true, db)
    else
      var ca := db.cas[row];
      var server := SignCertificate(ca.key, ca.cert.cert, r.key, r.name, r.serial);
      var fp := if r.digest then DigestOf(ca.cert.cert) else NoFingerprint;
      (true, db.(configs := db.configs[r.config := Config(ca.cert, fp, Pem(server))]))
  }

  predicate Referenced(db: Db, fp: Fingerprint) {
    exists c | c in db.configs :: db.configs[c].fingerprint == fp
  }

  function CaDeleted(db: Db, r: Request): (bool, Db)
    requires r.DeleteCa?
  {
    if !r.found || r.id !in db.cas then (false, db)
    else
      var fp := db.cas[r.id].fingerprint;
      if fp == NoFingerprint || (r.checked && Referenced(db, fp)) || !r.decrypted || !r.deleted then (false, db)
      else (true, db.(cas := db.cas - {r.id}))
  }

  /** The certificate that `gen_client_cert` takes as the issuer. */
  function IssuerText(db: Db, r: Request): Text
    requires r.GenClient? && r.config in db.configs
  {
    var c := db.configs[r.config];
    if !c.caCert.Short? then c.caCert
    else if r.joined && IsHit(db, c.fingerprint, r.certRow) then db.cas[r.certRow].cert
    else Short
  }

  /** The client certificate, if the request gets as far as signing one. */
  function ClientCert(db: Db, r: Request): Option<Certificate>
    requires r.GenClient?
  {
    if !r.found || r.config !in db.configs then None
    else
      var fp, issuer := db.configs[r.config].fingerprint, IssuerText(db, r);
      if !issuer.Pem? || !r.keyed || !IsHit(db, fp, r.keyRow) || !r.openssl then None
      else Some(SignCertificate(db.cas[r.keyRow].key, issuer.cert, r.key, r.name, r.serial))
  }

  /** `INSERT ... ON CONFLICT (username)`: a known user gets the email of the request. */
  function UserStored(db: Db, r: Request): Db
    requires r.GenClient?
  {
    if r.user in db.users then db.(users := db.users[r.user := db.users[r.user].(email := r.email)])
    else db.(users := db.users[r.user := User(db.nextUser, r.email, r.clientName)], nextUser := db.nextUser + 1)
  }

  /** The profile of a user and a configuration, or the next free number. */
  function ProfileOf(db: Db, user: nat, config: int): nat {
    FindProfile(db.profiles, user, config, db.nextProfile, 0)
  }

  function FindProfile(profiles: map<nat, Profile>, user: nat, config: int, bound: nat, from: nat): (p: nat)
    ensures from <= bound ==> from <= p <= bound
    ensures from <= p < bound ==> p in profiles && profiles[p].user == user && profiles[p].config == config
    ensures forall q | from <= q < p && q in profiles :: !(profiles[q].user == user && profiles[q].config == config)
    decreases bound - from
  {
    if from >= bound then bound
    else if from in profiles && profiles[from].user == user && profiles[from].config == config then from
    else FindProfile(profiles, user, config, bound, from + 1)
  }

  /** `INSERT ... ON CONFLICT (user_id, config_id)`: a second certificate and its key replace
      the first and leave the rest of the profile alone. */
  function ProfileStored(db: Db, user: nat, r: Request, cert: Text): Db
    requires r.GenClient?
  {
    var p := ProfileOf(db, user, r.config);
    if p in db.profiles then db.(profiles := db.profiles[p := db.profiles[p].(cert := cert, key := r.key)])
    else db.(profiles := db.profiles[p := Profile(user, r.config, r.address, cert, r.key, false)], nextProfile := p + 1)
  }

  function ClientGenerated(db: Db, r: Request): (bool, Db)
    requires r.GenClient?
  {
    var cert := ClientCert(db, r);
    if cert.None? || !r.userStored then (false, db)
    else
      var with := UserStored(db, r);
      if !r.profileStored then (false, with)
      else (true, ProfileStored(with, with.users[r.user].id, r, Pem(cert.value)))
  }

  function SerialOf(t: Text): Option<nat> {
    if t.Pem? then Some(t.cert.serial) else None
  }

  /** The result of the last statement is not looked at. */
  function Revoked(db: Db, r: Request): (bool, Db)
    requires r.Revoke?
  {
    if !r.found || r.profile !in db.profiles || !r.recorded then (false, db)
    else
      var row := db.profiles[r.profile];
      var listed := db.(revocations := db.revocations + [Revocation(r.profile, SerialOf(row.cert))]);
      (true, if r.flagged then listed.(profiles := db.profiles[r.profile := row.(revoked := true)]) else listed)
  }

  function ConfigAdded(db: Db, r: Request): (bool, Db)
    requires r.WebAddConfig?
  {
    (true, db.(configs := db.configs[db.nextConfig := Config(r.caCert, NoFingerprint, r.serverCert)],
               nextConfig := db.nextConfig + 1))
  }

  function Surviving(rows: seq<Revocation>, profiles: map<nat, Profile>): seq<Revocation> {
    if rows == [] then []
    else (if rows[0].profile in profiles then [rows[0]] else []) + Surviving(rows[1..], profiles)
  }

  /** The deletion cascades to the profiles and from them to the revocations. */
  function ConfigDeleted(db: Db, r: Request): (bool, Db)
    requires r.WebDeleteConfig?
  {
    var kept := map p | p in db.profiles && db.profiles[p].config != r.config :: db.profiles[p];
    (true, db.(configs := db.configs - {r.config}, profiles := kept, revocations := Surviving(db.revocations, kept)))
  }

  function Apply(db: Db, r: Request): (bool, Db) {
    if r.GenerateCa? then CaGenerated(db, r)
    else if r.SignServer? then ServerSigned(db, r)
    else if r.DeleteCa? then CaDeleted(db, r)
    else if r.GenClient? then ClientGenerated(db, r)
    else if r.Revoke? then Revoked(db, r)
    else if r.WebAddConfig? then ConfigAdded(db, r)
    else ConfigDeleted(db, r)
  }
}
