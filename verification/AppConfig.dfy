/** AppConfig deployments, hosted versions and polling sessions
    (kumostack/services/appconfig.py), within one account and region. */
module AppConfig {
  import opened Prelude
  import opened Text

  datatype State = Complete | RolledBack

  datatype Deployment = Deployment(number: nat, profile: string, version: string, state: State)

  /** A stored configuration version. */
  datatype Hosted = Hosted(content: string, contentType: string)

  datatype Session = Session(app: string, env: string, profile: string)

  /** Stores keyed by the parts that the source joins with slashes; generated ids contain
      none.  Applications, environments and profiles are stored with their names. */
  datatype Stores = Stores(
    apps: Entries<string, string>,
    envs: Entries<(string, string), string>,
    profiles: Entries<(string, string), string>,
    versions: Entries<(string, string, string), Hosted>,
    deployments: Entries<(string, string, nat), Deployment>,
    sessions: Entries<string, Session>
  )

  const EMPTY := Stores([], [], [], [], [], [])

  /** `id`, `token` and `next` are the random values the handler draws. */
  datatype Request =
    | CreateApplication(name: string, id: string)
    | DeleteApplication(app: string)
    | CreateEnvironment(app: string, name: string, id: string)
    | DeleteEnvironment(app: string, env: string)
    | CreateProfile(app: string, name: string, id: string)
    | DeleteProfile(app: string, profile: string)
    | CreateVersion(app: string, profile: string, record: Hosted)
    | DeleteVersion(app: string, profile: string, version: string)
    | StartDeployment(app: string, env: string, profile: string, version: string)
    | StopDeployment(app: string, env: string, number: nat)
    | StartSession(appName: string, envName: string, profileName: string, token: string)
    | Poll(token: string, next: string)

  datatype Reply =
    | Ok
    | NotFound
    | BadRequest
    | Numbered(n: nat)
    | Opened(token: string)
    | Config(latest: Option<Deployment>, served: Hosted, next: string)

  // ---------------------------------------------------------------------
  // Selecting entries
  // ---------------------------------------------------------------------

  function Keep<K, V>(d: Entries<K, V>, keep: K -> bool): Entries<K, V> {
    if d == [] then []
    else if keep(d[0].0) then [d[0]] + Keep(d[1..], keep)
    else Keep(d[1..], keep)
  }

  lemma {:induction false} KeepGet<K, V>(d: Entries<K, V>, keep: K -> bool, k: K)
    ensures Get(Keep(d, keep), k) == if keep(k) then Get(d, k) else None
  {
    if d != [] {
      KeepGet(d[1..], keep, k);
      if keep(d[0].0) {
        assert Keep(d, keep)[1..] == Keep(d[1..], keep);
      }
    }
  }

  lemma {:induction false} KeepUnique<K, V>(d: Entries<K, V>, keep: K -> bool)
    requires UniqueKeys(d)
    ensures UniqueKeys(Keep(d, keep))
  {
    if d != [] {
      KeepUnique(d[1..], keep);
      var r := Keep(d[1..], keep);
      KeepGet(d[1..], keep, d[0].0);
      HasIndex(r, d[0].0);
      HasIndex(d[1..], d[0].0);
    }
  }

  /** Id of the first entry with the given name whose key is in the family. */
  function FindNamed<K>(d: Entries<K, string>, name: string, family: K -> bool): Option<K> {
    if d == [] then None
    else if family(d[0].0) && d[0].1 == name then Some(d[0].0)
    else FindNamed(d[1..], name, family)
  }

  predicate Any(app: string) {
    true
  }

  function PartOf(app: string): ((string, string)) -> bool {
    (k: (string, string)) => k.0 == app
  }

  function ResolveApp(s: Stores, identifier: string): Option<string> {
    if Has(s.apps, identifier) then Some(identifier) else FindNamed(s.apps, identifier, Any)
  }

  /** An environment or profile of `app`, by id or else by name. */
  function ResolveIn(d: Entries<(string, string), string>, app: string, identifier: string): Option<string> {
    if Has(d, (app, identifier)) then Some(identifier)
    else
      var k := FindNamed(d, identifier, PartOf(app));
      if k.None? then None else Some(k.value.1)
  }

  // ---------------------------------------------------------------------
  // Deployments of one environment
  // ---------------------------------------------------------------------

  /** Number of keys in the family: deployments of an environment, versions of a profile. */
  function Tally<K, V>(d: Entries<K, V>, family: K -> bool): nat {
    if d == [] then 0 else (if family(d[0].0) then 1 else 0) + Tally(d[1..], family)
  }

  function OfEnv(app: string, env: string): ((string, string, nat)) -> bool {
    (k: (string, string, nat)) => k.0 == app && k.1 == env
  }

  function OfProfile(app: string, profile: string): ((string, string, string)) -> bool {
    (k: (string, string, string)) => k.0 == app && k.1 == profile
  }

  lemma {:induction false} TallyPut<K, V>(d: Entries<K, V>, k: K, v: V, family: K -> bool)
    ensures Tally(Put(d, k, v), family) == Tally(d, family) + if !Has(d, k) && family(k) then 1 else 0
  {
    if d != [] && d[0].0 != k {
      TallyPut(d[1..], k, v, family);
    }
  }

  lemma {:induction false} TallyKeep<K, V>(d: Entries<K, V>, keep: K -> bool, family: K -> bool)
    requires forall k :: family(k) ==> keep(k)
    ensures Tally(Keep(d, keep), family) == Tally(d, family)
  {
    if d != [] {
      TallyKeep(d[1..], keep, family);
      if keep(d[0].0) {
        assert Keep(d, keep)[1..] == Keep(d[1..], keep);
      }
    }
  }

  lemma {:induction false} TallyNone<K, V>(d: Entries<K, V>, family: K -> bool)
    requires forall k :: family(k) ==> !Has(d, k)
    ensures Tally(d, family) == 0
  {
    if d != [] {
      assert Has(d, d[0].0);
      forall k | family(k)
        ensures !Has(d[1..], k)
      {
        assert !Has(d, k);
      }
      TallyNone(d[1..], family);
    }
  }

  /** Whether a poll of `s` may be served from this deployment. */
  predicate Serves(k: (string, string, nat), d: Deployment, s: Session) {
    k.0 == s.app && k.1 == s.env && d.state == Complete && d.profile == s.profile
  }

  function Newer(best: Option<Deployment>, d: Deployment): Option<Deployment> {
    if best.None? || d.number > best.value.number then Some(d) else best
  }

  /** The loop over the deployments that tracks the latest one. */
  function LatestFrom(d: Entries<(string, string, nat), Deployment>, s: Session, best: Option<Deployment>):
    Option<Deployment>
    decreases |d|
  {
    if d == [] then best
    else LatestFrom(d[1..], s, if Serves(d[0].0, d[0].1, s) then Newer(best, d[0].1) else best)
  }

  function Latest(d: Entries<(string, string, nat), Deployment>, s: Session): Option<Deployment> {
    LatestFrom(d, s, None)
  }

  /** What a poll returns when no stored version is to be served. */
  const NOTHING := Hosted("", "application/octet-stream")

  function Served(s: Stores, session: Session, latest: Option<Deployment>): Hosted {
    if latest.None? then NOTHING
    else GetOr(Get(s.versions, (session.app, session.profile, latest.value.version)), NOTHING)
  }

  // ---------------------------------------------------------------------
  // The handlers as state transitions
  // ---------------------------------------------------------------------

  function Step(s: Stores, r: Request): (Stores, Reply) {
    match r
    case CreateApplication(name, id) =>
      if name == "" then (s, BadRequest) else (s.(apps := Put(s.apps, id, name)), Ok)
    case DeleteApplication(app) =>
      if !Has(s.apps, app) then (s, NotFound)
      else (DropApplication(s, app), Ok)
    case CreateEnvironment(app, name, id) =>
      if !Has(s.apps, app) then (s, NotFound)
      else if name == "" then (s, BadRequest)
      else (s.(envs := Put(s.envs, (app, id), name)), Ok)
    case DeleteEnvironment(app, env) =>
      if !Has(s.envs, (app, env)) then (s, NotFound) else (s.(envs := Remove(s.envs, (app, env))), Ok)
    case CreateProfile(app, name, id) =>
      if !Has(s.apps, app) then (s, NotFound)
      else if name == "" then (s, BadRequest)
      else (s.(profiles := Put(s.profiles, (app, id), name)), Ok)
    case DeleteProfile(app, profile) =>
      if !Has(s.profiles, (app, profile)) then (s, NotFound)
      else
        (s.(profiles := Remove(s.profiles, (app, profile)),
            versions := Keep(s.versions, VersionNotOf(app, profile))), Ok)
    case CreateVersion(app, profile, record) =>
      if !Has(s.profiles, (app, profile)) then (s, NotFound)
      else
        var n := Tally(s.versions, OfProfile(app, profile)) + 1;
        (s.(versions := Put(s.versions, (app, profile, Decimal(n)), record)), Numbered(n))
    case DeleteVersion(app, profile, version) =>
      if !Has(s.versions, (app, profile, version)) then (s, NotFound)
      else (s.(versions := Remove(s.versions, (app, profile, version))), Ok)
    case StartDeployment(app, env, profile, version) =>
      if !Has(s.apps, app) || !Has(s.envs, (app, env)) then (s, NotFound)
      else if profile != "" && !Has(s.profiles, (app, profile)) then (s, NotFound)
      else
        var n := Tally(s.deployments, OfEnv(app, env)) + 1;
        (s.(deployments := Put(s.deployments, (app, env, n), Deployment(n, profile, version, Complete))),
         Numbered(n))
    case StopDeployment(app, env, number) =>
      var d := Get(s.deployments, (app, env, number));
      if d.None? then (s, NotFound)
      else (s.(deployments := Put(s.deployments, (app, env, number), d.value.(state := RolledBack))), Ok)
    case StartSession(appName, envName, profileName, token) =>
      if appName == "" || envName == "" || profileName == "" then (s, BadRequest)
      else
        var app := ResolveApp(s, appName);
        if app.None? then (s, NotFound)
        else
          var env := ResolveIn(s.envs, app.value, envName);
          if env.None? then (s, NotFound)
          else
            var profile := ResolveIn(s.profiles, app.value, profileName);
            if profile.None? then (s, NotFound)
            else
              (s.(sessions := Put(s.sessions, token, Session(app.value, env.value, profile.value))), Opened(token))
    case Poll(token, next) =>
      var session := Get(s.sessions, token);
      if session.None? then (s, BadRequest)
      else
        var latest := Latest(s.deployments, session.value);
        (s.(sessions := Put(Remove(s.sessions, token), next, session.value)),
         Config(latest, Served(s, session.value, latest), next))
  }

  function PairOutside(app: string): ((string, string)) -> bool {
    (k: (string, string)) => k.0 != app
  }

  function VersionOutside(app: string): ((string, string, string)) -> bool {
    (k: (string, string, string)) => k.0 != app
  }

  function DeploymentOutside(app: string): ((string, string, nat)) -> bool {
    (k: (string, string, nat)) => k.0 != app
  }

  function VersionNotOf(app: string, profile: string): ((string, string, string)) -> bool {
    (k: (string, string, string)) => !(k.0 == app && k.1 == profile)
  }

  function DropApplication(s: Stores, app: string): Stores {
    s.(apps := Remove(s.apps, app),
       envs := Keep(s.envs, PairOutside(app)),
       profiles := Keep(s.profiles, PairOutside(app)),
       versions := Keep(s.versions, VersionOutside(app)),
       deployments := Keep(s.deployments, DeploymentOutside(app)))
  }

  function Run(reqs: seq<Request>): Stores {
    if reqs == [] then EMPTY else Step(Run(reqs[..|reqs| - 1]), reqs[|reqs| - 1]).0
  }

  function ReplyAt(reqs: seq<Request>, i: nat): Reply
    requires i < |reqs|
  {
    Step(Run(reqs[..i]), reqs[i]).1
  }

  // ---------------------------------------------------------------------
  // Numbering
  // ---------------------------------------------------------------------

  /** The deployment numbers of an environment are exactly 1 to their count. */
  ghost predicate Numbered1ToN(d: Entries<(string, string, nat), Deployment>, app: string, env: string) {
    forall m: nat :: Has(d, (app, env, m)) <==> 1 <= m <= Tally(d, OfEnv(app, env))
  }

  /** Deployments carry the number they are stored under and belong to live applications. */
  ghost predicate Sound(s: Stores) {
    UniqueKeys(s.deployments) &&
    (forall app, env :: Numbered1ToN(s.deployments, app, env)) &&
    forall app, env, m: nat :: Has(s.deployments, (app, env, m)) ==>
      Has(s.apps, app) && Get(s.deployments, (app, env, m)).value.number == m
  }

  lemma SoundStart(s: Stores, r: Request)
    requires Sound(s) && r.StartDeployment?
    ensures Sound(Step(s, r).0)
  {
    var d, d' := s.deployments, Step(s, r).0.deployments;
    if Step(s, r).1.Numbered? {
      var n := Step(s, r).1.n;
      var k, v := (r.app, r.env, n), Deployment(n, r.profile, r.version, Complete);
      assert Numbered1ToN(d, r.app, r.env);
      assert !Has(d, k);
      PutUnique(d, k, v);
      forall app, env
        ensures Numbered1ToN(d', app, env)
      {
        assert Numbered1ToN(d, app, env);
        TallyPut(d, k, v, OfEnv(app, env));
        forall m: nat
          ensures Has(d', (app, env, m)) <==> 1 <= m <= Tally(d', OfEnv(app, env))
        {
          PutGet(d, k, v, (app, env, m));
        }
      }
      forall app, env, m: nat | Has(d', (app, env, m))
        ensures Has(s.apps, app) && Get(d', (app, env, m)).value.number == m
      {
        PutGet(d, k, v, (app, env, m));
      }
    }
  }

  lemma SoundStop(s: Stores, r: Request)
    requires Sound(s) && r.StopDeployment?
    ensures Sound(Step(s, r).0)
  {
    var d, d' := s.deployments, Step(s, r).0.deployments;
    var k := (r.app, r.env, r.number);
    if Has(d, k) {
      var v := Get(d, k).value.(state := RolledBack);
      PutUnique(d, k, v);
      forall app, env
        ensures Numbered1ToN(d', app, env)
      {
        assert Numbered1ToN(d, app, env);
        TallyPut(d, k, v, OfEnv(app, env));
        forall m: nat
          ensures Has(d', (app, env, m)) <==> 1 <= m <= Tally(d', OfEnv(app, env))
        {
          PutGet(d, k, v, (app, env, m));
        }
      }
      forall app, env, m: nat | Has(d', (app, env, m))
        ensures Has(s.apps, app) && Get(d', (app, env, m)).value.number == m
      {
        PutGet(d, k, v, (app, env, m));
      }
    }
  }

  lemma SoundDrop(s: Stores, app: string)
    requires Sound(s) && UniqueKeys(s.apps)
    ensures Sound(DropApplication(s, app))
  {
    var keep := DeploymentOutside(app);
    var d, d' := s.deployments, Keep(s.deployments, keep);
    KeepUnique(d, keep);
    forall a, e
      ensures Numbered1ToN(d', a, e)
    {
      assert Numbered1ToN(d, a, e);
      forall m: nat
        ensures Get(d', (a, e, m)) == if a != app then Get(d, (a, e, m)) else None
      {
        KeepGet(d, keep, (a, e, m));
      }
      if a == app {
        TallyNone(d', OfEnv(a, e));
      } else {
        TallyKeep(d, keep, OfEnv(a, e));
      }
    }
    forall a, e, m: nat | Has(d', (a, e, m))
      ensures Has(Remove(s.apps, app), a) && Get(d', (a, e, m)).value.number == m
    {
      KeepGet(d, keep, (a, e, m));
      assert Has(s.apps, a);
      RemoveGet(s.apps, app, a);
    }
  }

  lemma SoundStep(s: Stores, r: Request)
    requires Sound(s) && UniqueKeys(s.apps)
    ensures Sound(Step(s, r).0) && UniqueKeys(Step(s, r).0.apps)
  {
    match r
    case StartDeployment(_, _, _, _) => SoundStart(s, r);
    case StopDeployment(_, _, _) => SoundStop(s, r);
    case DeleteApplication(app) =>
      SoundDrop(s, app);
      RemoveUnique(s.apps, app);
    case CreateApplication(name, id) =>
      PutUnique(s.apps, id, name);
      forall app
        ensures Has(s.apps, app) ==> Has(Put(s.apps, id, name), app)
      {
        PutGet(s.apps, id, name, app);
      }
    case _ =>
  }

  /** In every run, the deployment numbers of each environment are exactly 1..n. */
  lemma {:induction false} RunsAreSound(reqs: seq<Request>)
    ensures Sound(Run(reqs)) && UniqueKeys(Run(reqs).apps)
  {
    if reqs == [] {
      assert forall app, env :: Tally(EMPTY.deployments, OfEnv(app, env)) == 0;
    } else {
      RunsAreSound(reqs[..|reqs| - 1]);
      SoundStep(Run(reqs[..|reqs| - 1]), reqs[|reqs| - 1]);
    }
  }

  // ---------------------------------------------------------------------
  // What belongs to what
  // ---------------------------------------------------------------------

  /** Environments and profiles belong to existing applications, versions to existing profiles. */
  ghost predicate Owned(s: Stores) {
    UniqueKeys(s.apps) && UniqueKeys(s.envs) && UniqueKeys(s.profiles) && UniqueKeys(s.versions) &&
    (forall app, env :: Has(s.envs, (app, env)) ==> Has(s.apps, app)) &&
    (forall app, profile :: Has(s.profiles, (app, profile)) ==> Has(s.apps, app)) &&
    (forall app, profile, v :: Has(s.versions, (app, profile, v)) ==> Has(s.profiles, (app, profile)))
  }

  /** An application is there from its creation under a name until its deletion. */
  lemma ApplicationsAfter(s: Stores, r: Request, app: string)
    requires Owned(s)
    ensures Get(Step(s, r).0.apps, app) ==
            if r.CreateApplication? && r.id == app && r.name != "" then Some(r.name)
            else if r == DeleteApplication(app) then None
            else Get(s.apps, app)
  {
    match r
    case CreateApplication(name, id) => PutGet(s.apps, id, name, app);
    case DeleteApplication(a) => RemoveGet(s.apps, a, app);
    case _ =>
  }

  /** An environment is there from its creation, under a name in an existing application, until
      its own deletion or that of the application. */
  lemma EnvironmentsAfter(s: Stores, r: Request, app: string, env: string)
    requires Owned(s)
    ensures Get(Step(s, r).0.envs, (app, env)) ==
            if r.CreateEnvironment? && r.app == app && r.id == env && r.name != "" && Has(s.apps, app) then Some(r.name)
            else if r == DeleteEnvironment(app, env) || r == DeleteApplication(app) then None
            else Get(s.envs, (app, env))
  {
    match r
    case CreateEnvironment(a, name, id) => PutGet(s.envs, (a, id), name, (app, env));
    case DeleteEnvironment(a, e) => RemoveGet(s.envs, (a, e), (app, env));
    case DeleteApplication(a) => KeepGet(s.envs, PairOutside(a), (app, env));
    case _ =>
  }

  lemma ProfilesAfter(s: Stores, r: Request, app: string, profile: string)
    requires Owned(s)
    ensures Get(Step(s, r).0.profiles, (app, profile)) ==
            if r.CreateProfile? && r.app == app && r.id == profile && r.name != "" && Has(s.apps, app) then Some(r.name)
            else if r == DeleteProfile(app, profile) || r == DeleteApplication(app) then None
            else Get(s.profiles, (app, profile))
  {
    match r
    case CreateProfile(a, name, id) => PutGet(s.profiles, (a, id), name, (app, profile));
    case DeleteProfile(a, p) => RemoveGet(s.profiles, (a, p), (app, profile));
    case DeleteApplication(a) => KeepGet(s.profiles, PairOutside(a), (app, profile));
    case _ =>
  }

  /** The version a request creates: its profile must exist, and the count gives its number. */
  ghost predicate Creates(s: Stores, r: Request, app: string, profile: string, v: string) {
    r.CreateVersion? && r.app == app && r.profile == profile && Has(s.profiles, (app, profile)) &&
    Step(s, r).1.Numbered? && v == Decimal(Step(s, r).1.n)
  }

  /** A version is there from its creation until its own deletion, or that of the profile or the
      application. */
  lemma VersionsAfter(s: Stores, r: Request, app: string, profile: string, v: string)
    requires Owned(s)
    ensures Get(Step(s, r).0.versions, (app, profile, v)) ==
            if Creates(s, r, app, profile, v) then Some(r.record)
            else if r == DeleteVersion(app, profile, v) || r == DeleteProfile(app, profile) || r == DeleteApplication(app)
            then None
            else Get(s.versions, (app, profile, v))
  {
    match r
    case CreateVersion(a, p, record) =>
      if Step(s, r).1.Numbered? {
        PutGet(s.versions, (a, p, Decimal(Step(s, r).1.n)), record, (app, profile, v));
      }
    case DeleteVersion(a, p, w) => RemoveGet(s.versions, (a, p, w), (app, profile, v));
    case DeleteProfile(a, p) => KeepGet(s.versions, VersionNotOf(a, p), (app, profile, v));
    case DeleteApplication(a) => KeepGet(s.versions, VersionOutside(a), (app, profile, v));
    case _ =>
  }

  lemma KeysStayUnique(s: Stores, r: Request)
    requires Owned(s)
    ensures var s' := Step(s, r).0;
            UniqueKeys(s'.apps) && UniqueKeys(s'.envs) && UniqueKeys(s'.profiles) && UniqueKeys(s'.versions)
  {
    match r
    case CreateApplication(name, id) => PutUnique(s.apps, id, name);
    case CreateEnvironment(a, name, id) => PutUnique(s.envs, (a, id), name);
    case CreateProfile(a, name, id) => PutUnique(s.profiles, (a, id), name);
    case CreateVersion(a, p, record) =>
      if Step(s, r).1.Numbered? {
        PutUnique(s.versions, (a, p, Decimal(Step(s, r).1.n)), record);
      }
    case DeleteEnvironment(a, e) => RemoveUnique(s.envs, (a, e));
    case DeleteVersion(a, p, w) => RemoveUnique(s.versions, (a, p, w));
    case DeleteProfile(a, p) =>
      RemoveUnique(s.profiles, (a, p));
      KeepUnique(s.versions, VersionNotOf(a, p));
    case DeleteApplication(a) =>
      RemoveUnique(s.apps, a);
      KeepUnique(s.envs, PairOutside(a));
      KeepUnique(s.profiles, PairOutside(a));
      KeepUnique(s.versions, VersionOutside(a));
    case _ =>
  }

  lemma OwnedStep(s: Stores, r: Request)
    requires Owned(s)
    ensures Owned(Step(s, r).0)
  {
    var s' := Step(s, r).0;
    KeysStayUnique(s, r);
    forall app, env | Has(s'.envs, (app, env))
      ensures Has(s'.apps, app)
    {
      EnvironmentsAfter(s, r, app, env);
      ApplicationsAfter(s, r, app);
    }
    forall app, profile | Has(s'.profiles, (app, profile))
      ensures Has(s'.apps, app)
    {
      ProfilesAfter(s, r, app, profile);
      ApplicationsAfter(s, r, app);
    }
    forall app, profile, v | Has(s'.versions, (app, profile, v))
      ensures Has(s'.profiles, (app, profile))
    {
      VersionsAfter(s, r, app, profile, v);
      ProfilesAfter(s, r, app, profile);
    }
  }

  /** In every run nothing outlives what it belongs to. */
  lemma {:induction false} RunsAreOwned(reqs: seq<Request>)
    ensures Owned(Run(reqs))
  {
    if reqs != [] {
      RunsAreOwned(reqs[..|reqs| - 1]);
      OwnedStep(Run(reqs[..|reqs| - 1]), reqs[|reqs| - 1]);
    }
  }

  /** Something the request names is not there. */
  ghost predicate Missing(s: Stores, r: Request) {
    match r
    case CreateApplication(_, _) => false
    case DeleteApplication(app) => !Has(s.apps, app)
    case CreateEnvironment(app, _, _) => !Has(s.apps, app)
    case CreateProfile(app, _, _) => !Has(s.apps, app)
    case DeleteEnvironment(app, env) => !Has(s.envs, (app, env))
    case DeleteProfile(app, profile) => !Has(s.profiles, (app, profile))
    case CreateVersion(app, profile, _) => !Has(s.profiles, (app, profile))
    case DeleteVersion(app, profile, v) => !Has(s.versions, (app, profile, v))
    case StartDeployment(app, env, profile, _) =>
      !(Has(s.apps, app) && Has(s.envs, (app, env)) && (profile == "" || Has(s.profiles, (app, profile))))
    case StopDeployment(app, env, number) => !Has(s.deployments, (app, env, number))
    case StartSession(app, env, profile, _) =>
      app != "" && env != "" && profile != "" &&
      !(ResolveApp(s, app).Some? &&
        ResolveIn(s.envs, ResolveApp(s, app).value, env).Some? &&
        ResolveIn(s.profiles, ResolveApp(s, app).value, profile).Some?)
    case Poll(_, _) => false
  }

  /** A name or identifier is empty, or a token is not live. */
  ghost predicate Malformed(s: Stores, r: Request) {
    match r
    case CreateApplication(name, _) => name == ""
    case CreateEnvironment(_, name, _) => name == ""
    case CreateProfile(_, name, _) => name == ""
    case StartSession(app, env, profile, _) => app == "" || env == "" || profile == ""
    case Poll(token, _) => !Has(s.sessions, token)
    case _ => false
  }

  /** A request is refused exactly if something it names is missing, or else it is malformed; it
      then changes nothing. */
  lemma RefusedExactly(s: Stores, r: Request)
    ensures Step(s, r).1 == NotFound <==> Missing(s, r)
    ensures Step(s, r).1 == BadRequest <==> !Missing(s, r) && Malformed(s, r)
    ensures Step(s, r).1 in {NotFound, BadRequest} ==> Step(s, r).0 == s
  {
  }

  // ---------------------------------------------------------------------
  // The latest deployment
  // ---------------------------------------------------------------------

  /** Deployment `m` of the session's environment is complete and for its profile. */
  ghost predicate Serving(d: Entries<(string, string, nat), Deployment>, s: Session, m: nat) {
    var x := Get(d, (s.app, s.env, m));
    x.Some? && x.value.state == Complete && x.value.profile == s.profile
  }

  lemma {:induction false} LatestFromExact(d: Entries<(string, string, nat), Deployment>, s: Session,
                                           best: Option<Deployment>)
    ensures var r := LatestFrom(d, s, best);
            (best.Some? ==> r.Some? && best.value.number <= r.value.number) &&
            (forall i :: 0 <= i < |d| && Serves(d[i].0, d[i].1, s) ==> r.Some? && d[i].1.number <= r.value.number) &&
            (r == best || r.None? ||
             exists i :: 0 <= i < |d| && Serves(d[i].0, d[i].1, s) && d[i].1 == r.value)
    decreases |d|
  {
    if d != [] {
      var next := if Serves(d[0].0, d[0].1, s) then Newer(best, d[0].1) else best;
      LatestFromExact(d[1..], s, next);
      var r := LatestFrom(d, s, best);
      forall i | 0 <= i < |d| && Serves(d[i].0, d[i].1, s)
        ensures r.Some? && d[i].1.number <= r.value.number
      {
        if i > 0 {
          assert d[1..][i - 1] == d[i];
        }
      }
      if r.Some? && r != best && r != next {
        var i :| 0 <= i < |d[1..]| && Serves(d[1..][i].0, d[1..][i].1, s) && d[1..][i].1 == r.value;
        assert d[i + 1] == d[1..][i];
      }
    }
  }

  /** A poll serves the highest-numbered complete deployment for its profile, if there is one. */
  lemma LatestExact(s: Stores, session: Session)
    requires Sound(s)
    ensures var r := Latest(s.deployments, session);
            (r.None? <==> forall m: nat :: !Serving(s.deployments, session, m)) &&
            (r.Some? ==>
               r == Get(s.deployments, (session.app, session.env, r.value.number)) &&
               Serving(s.deployments, session, r.value.number) &&
               forall m: nat :: Serving(s.deployments, session, m) ==> m <= r.value.number)
  {
    var d, r := s.deployments, Latest(s.deployments, session);
    LatestFromExact(d, session, None);
    forall m: nat | Serving(d, session, m)
      ensures r.Some? && m <= r.value.number
    {
      var k := (session.app, session.env, m);
      HasIndex(d, k);
      var i :| 0 <= i < |d| && d[i] == (k, Get(d, k).value);
      assert Serves(d[i].0, d[i].1, session);
    }
    if r.Some? {
      var i :| 0 <= i < |d| && Serves(d[i].0, d[i].1, session) && d[i].1 == r.value;
      GetAt(d, i);
      var k := d[i].0;
      assert k == (session.app, session.env, k.2);
      assert Has(d, (session.app, session.env, k.2));
      assert Serving(d, session, r.value.number);
    }
  }

  /** Stopping the deployment that polls serve makes them serve the next lower one. */
  lemma StopReverts(s: Stores, session: Session)
    requires Sound(s) && Latest(s.deployments, session).Some?
    ensures var n := Latest(s.deployments, session).value.number;
            var (after, reply) := Step(s, StopDeployment(session.app, session.env, n));
            var r := Latest(after.deployments, session);
            reply == Ok &&
            (r.Some? ==> r.value.number < n && Serving(s.deployments, session, r.value.number)) &&
            forall m: nat :: m < n && Serving(s.deployments, session, m) ==> r.Some? && m <= r.value.number
  {
    LatestExact(s, session);
    var n := Latest(s.deployments, session).value.number;
    var stop := StopDeployment(session.app, session.env, n);
    SoundStop(s, stop);
    var after := Step(s, stop).0;
    LatestExact(after, session);
    forall m: nat
      ensures Serving(after.deployments, session, m) <==> m != n && Serving(s.deployments, session, m)
    {
      PutGet(s.deployments, (session.app, session.env, n),
             Get(s.deployments, (session.app, session.env, n)).value.(state := RolledBack),
             (session.app, session.env, m));
    }
  }

  /** A poll after a deployment has been started serves that deployment: its number, profile
      and version, and the record stored under that version, or nothing if there is none. */
  lemma PollServesStarted(s: Stores, app: string, env: string, profile: string, version: string, token: string, next: string)
    requires Sound(s) && UniqueKeys(s.apps) && Get(s.sessions, token) == Some(Session(app, env, profile))
    requires Has(s.apps, app) && Has(s.envs, (app, env)) && (profile == "" || Has(s.profiles, (app, profile)))
    ensures var after := Step(s, StartDeployment(app, env, profile, version)).0;
            var reply := Step(after, Poll(token, next)).1;
            var record := Get(s.versions, (app, profile, version));
            reply.Config? && reply.latest.Some? && reply.next == next &&
            reply.latest.value.profile == profile && reply.latest.value.version == version &&
            Step(s, StartDeployment(app, env, profile, version)).1 == Numbered(reply.latest.value.number) &&
            reply.served == if record.Some? then record.value else Hosted("", "application/octet-stream")
  {
    var start := StartDeployment(app, env, profile, version);
    var after, n := Step(s, start).0, Tally(s.deployments, OfEnv(app, env)) + 1;
    var session := Session(app, env, profile);
    var d := Deployment(n, profile, version, Complete);
    SoundStart(s, start);
    LatestExact(after, session);
    PutGet(s.deployments, (app, env, n), d, (app, env, n));
    assert Serving(after.deployments, session, n);
    forall m: nat | m != n
      ensures Get(after.deployments, (app, env, m)) == Get(s.deployments, (app, env, m))
    {
      PutGet(s.deployments, (app, env, n), d, (app, env, m));
    }
    NoneNewer(s, after.deployments, session, n);
  }

  lemma NoneNewer(s: Stores, d: Entries<(string, string, nat), Deployment>, session: Session, n: nat)
    requires Sound(s) && n == Tally(s.deployments, OfEnv(session.app, session.env)) + 1
    requires forall m: nat :: m != n ==> Get(d, (session.app, session.env, m)) == Get(s.deployments, (session.app, session.env, m))
    ensures forall m: nat :: Serving(d, session, m) ==> m <= n
  {
    assert Numbered1ToN(s.deployments, session.app, session.env);
  }

  lemma {:induction false} FindNamedExactly<K>(d: Entries<K, string>, name: string, family: K -> bool)
    ensures var r := FindNamed(d, name, family);
            (r.None? <==> forall i :: 0 <= i < |d| ==> !(family(d[i].0) && d[i].1 == name)) &&
            (r.Some? ==>
               exists i :: 0 <= i < |d| && r == Some(d[i].0) && family(d[i].0) && d[i].1 == name &&
                 forall j :: 0 <= j < i ==> !(family(d[j].0) && d[j].1 == name))
  {
    if d != [] && !(family(d[0].0) && d[0].1 == name) {
      FindNamedExactly(d[1..], name, family);
      var r := FindNamed(d, name, family);
      if r.Some? {
        var i :| 0 <= i < |d[1..]| && r == Some(d[1..][i].0) && family(d[1..][i].0) && d[1..][i].1 == name &&
          forall j :: 0 <= j < i ==> !(family(d[1..][j].0) && d[1..][j].1 == name);
        assert d[i + 1] == d[1..][i];
        forall j | 0 <= j < i + 1
          ensures !(family(d[j].0) && d[j].1 == name)
        {
          assert j > 0 ==> d[j] == d[1..][j - 1];
        }
      } else {
        forall i | 0 <= i < |d|
          ensures !(family(d[i].0) && d[i].1 == name)
        {
          assert i > 0 ==> d[i] == d[1..][i - 1];
        }
      }
    }
  }

  /** An application is found by its id, or else as the first created with that name. */
  lemma ApplicationResolved(s: Stores, identifier: string)
    ensures var r := ResolveApp(s, identifier);
            if Has(s.apps, identifier) then r == Some(identifier)
            else if exists i :: 0 <= i < |s.apps| && s.apps[i].1 == identifier then
              exists i :: 0 <= i < |s.apps| && r == Some(s.apps[i].0) && s.apps[i].1 == identifier &&
                forall j :: 0 <= j < i ==> s.apps[j].1 != identifier
            else r.None?
  {
    FindNamedExactly(s.apps, identifier, Any);
  }

  /** An environment or profile is found by its id in the application, or else as the
      application's first with that name. */
  lemma PartResolved(d: Entries<(string, string), string>, app: string, identifier: string)
    ensures var r := ResolveIn(d, app, identifier);
            if Has(d, (app, identifier)) then r == Some(identifier)
            else if exists i :: 0 <= i < |d| && d[i].0.0 == app && d[i].1 == identifier then
              exists i :: 0 <= i < |d| && r == Some(d[i].0.1) && d[i].0.0 == app && d[i].1 == identifier &&
                forall j :: 0 <= j < i ==> !(d[j].0.0 == app && d[j].1 == identifier)
            else r.None?
  {
    FindNamedExactly(d, identifier, PartOf(app));
  }

  // ---------------------------------------------------------------------
  // Tokens
  // ---------------------------------------------------------------------

  function NewToken(r: Request): set<string> {
    match r
    case StartSession(_, _, _, token) => {token}
    case Poll(_, next) => {next}
    case _ => {}
  }

  function Issued(reqs: seq<Request>): set<string> {
    if reqs == [] then {} else Issued(reqs[..|reqs| - 1]) + NewToken(reqs[|reqs| - 1])
  }

  /** No request draws a token that an earlier one drew. */
  ghost predicate FreshTokens(reqs: seq<Request>) {
    forall i :: 0 <= i < |reqs| ==> NewToken(reqs[i]) !! Issued(reqs[..i])
  }

  lemma FreshPrefix(reqs: seq<Request>, k: nat)
    requires FreshTokens(reqs) && k <= |reqs|
    ensures FreshTokens(reqs[..k])
  {
    forall i | 0 <= i < k
      ensures NewToken(reqs[..k][i]) !! Issued(reqs[..k][..i])
    {
      assert reqs[..k][..i] == reqs[..i];
    }
  }

  lemma SessionsChange(s: Stores, r: Request, t: string)
    requires UniqueKeys(s.sessions)
    ensures UniqueKeys(Step(s, r).0.sessions)
    ensures Has(Step(s, r).0.sessions, t) ==> Has(s.sessions, t) || t in NewToken(r)
  {
    match r
    case StartSession(_, _, _, token) =>
      if Step(s, r).1.Opened? {
        var session :| Step(s, r).0.sessions == Put(s.sessions, token, session);
        PutUnique(s.sessions, token, session);
        PutGet(s.sessions, token, session, t);
      }
    case Poll(token, next) =>
      if Has(s.sessions, token) {
        var session := Get(s.sessions, token).value;
        RemoveUnique(s.sessions, token);
        PutUnique(Remove(s.sessions, token), next, session);
        RemoveGet(s.sessions, token, t);
        PutGet(Remove(s.sessions, token), next, session, t);
      }
    case _ =>
  }

  /** Every live token was issued by some request of the run. */
  lemma {:induction false} LiveTokensIssued(reqs: seq<Request>, t: string)
    ensures UniqueKeys(Run(reqs).sessions)
    ensures Has(Run(reqs).sessions, t) ==> t in Issued(reqs)
  {
    if reqs != [] {
      LiveTokensIssued(reqs[..|reqs| - 1], t);
      SessionsChange(Run(reqs[..|reqs| - 1]), reqs[|reqs| - 1], t);
    }
  }

  lemma {:induction false} IssuedGrows(reqs: seq<Request>, k: nat)
    requires k <= |reqs|
    ensures Issued(reqs[..k]) <= Issued(reqs)
    decreases |reqs|
  {
    if k == |reqs| {
      assert reqs[..k] == reqs;
    } else {
      IssuedGrows(reqs[..|reqs| - 1], k);
      assert reqs[..|reqs| - 1][..k] == reqs[..k];
    }
  }

  lemma SpentStep(reqs: seq<Request>, t: string)
    requires FreshTokens(reqs) && reqs != []
    requires t in Issued(reqs[..|reqs| - 1]) && !Has(Run(reqs[..|reqs| - 1]).sessions, t)
    ensures !Has(Run(reqs).sessions, t)
  {
    var front, r := reqs[..|reqs| - 1], reqs[|reqs| - 1];
    assert NewToken(r) !! Issued(front);
    LiveTokensIssued(front, t);
    SessionsChange(Run(front), r, t);
  }

  /** A token that was issued and is no longer live never becomes live again. */
  lemma {:induction false} SpentStaysSpent(reqs: seq<Request>, k: nat, t: string)
    requires FreshTokens(reqs) && k <= |reqs|
    requires t in Issued(reqs[..k]) && !Has(Run(reqs[..k]).sessions, t)
    ensures !Has(Run(reqs).sessions, t)
    decreases |reqs|
  {
    if k == |reqs| {
      assert reqs[..k] == reqs;
    } else {
      var front := reqs[..|reqs| - 1];
      assert front[..k] == reqs[..k];
      FreshPrefix(reqs, |reqs| - 1);
      SpentStaysSpent(front, k, t);
      IssuedGrows(front, k);
      SpentStep(reqs, t);
    }
  }

  /** A token is good for one poll: once a poll with it has succeeded, every later one is
      refused. */
  lemma TokenWorksOnce(reqs: seq<Request>, i: nat, j: nat, t: string)
    requires FreshTokens(reqs) && i < j < |reqs|
    requires reqs[i].Poll? && reqs[j].Poll? && reqs[i].token == reqs[j].token == t
    requires ReplyAt(reqs, i).Config?
    ensures ReplyAt(reqs, j) == BadRequest
  {
    var before, after := reqs[..i], reqs[..i + 1];
    assert after[..i] == before && after[i] == reqs[i];
    var s, next := Run(before), reqs[i].next;
    LiveTokensIssued(before, t);
    IssuedGrows(after, i);
    assert NewToken(reqs[i]) !! Issued(before);
    RemoveGet(s.sessions, t, t);
    PutGet(Remove(s.sessions, t), next, Get(s.sessions, t).value, t);
    assert !Has(Run(after).sessions, t);
    FreshPrefix(reqs, j);
    assert reqs[..j][..i + 1] == after;
    SpentStaysSpent(reqs[..j], i + 1, t);
  }

  /** Number of sessions successfully started. */
  function Started(reqs: seq<Request>): nat {
    if reqs == [] then 0
    else Started(reqs[..|reqs| - 1]) + if ReplyAt(reqs, |reqs| - 1).Opened? then 1 else 0
  }

  lemma {:induction false} PutSize<K, V>(d: Entries<K, V>, k: K, v: V)
    ensures |Put(d, k, v)| == |d| + if Has(d, k) then 0 else 1
  {
    if d != [] && d[0].0 != k {
      PutSize(d[1..], k, v);
    }
  }

  lemma {:induction false} RemoveSize<K, V>(d: Entries<K, V>, k: K)
    ensures |Remove(d, k)| == |d| - if Has(d, k) then 1 else 0
  {
    if d != [] && d[0].0 != k {
      RemoveSize(d[1..], k);
    }
  }

  lemma SessionsCount(s: Stores, r: Request)
    requires UniqueKeys(s.sessions) && forall t :: t in NewToken(r) ==> !Has(s.sessions, t)
    ensures |Step(s, r).0.sessions| == |s.sessions| + if Step(s, r).1.Opened? then 1 else 0
  {
    match r
    case StartSession(_, _, _, token) =>
      if Step(s, r).1.Opened? {
        var session :| Step(s, r).0.sessions == Put(s.sessions, token, session);
        PutSize(s.sessions, token, session);
      }
    case Poll(token, next) =>
      if Has(s.sessions, token) {
        RemoveSize(s.sessions, token);
        RemoveGet(s.sessions, token, next);
        PutSize(Remove(s.sessions, token), next, Get(s.sessions, token).value);
      }
    case _ =>
  }

  /** Polling rotates tokens without losing or adding a session: there are always exactly as
      many live tokens as sessions were started. */
  lemma {:induction false} OneLiveTokenPerSession(reqs: seq<Request>)
    requires FreshTokens(reqs)
    ensures |Run(reqs).sessions| == Started(reqs)
  {
    if reqs != [] {
      var front, r := reqs[..|reqs| - 1], reqs[|reqs| - 1];
      FreshPrefix(reqs, |reqs| - 1);
      OneLiveTokenPerSession(front);
      assert NewToken(r) !! Issued(front);
      LiveTokensIssued(front, "");
      forall t | t in NewToken(r)
        ensures !Has(Run(front).sessions, t)
      {
        LiveTokensIssued(front, t);
      }
      SessionsCount(Run(front), r);
    }
  }

  // ---------------------------------------------------------------------
  // Hosted configuration versions
  // ---------------------------------------------------------------------

  /** One of the numerals "1" to "n". */
  ghost predicate IsNumeral(v: string, n: nat) {
    exists m: nat :: 1 <= m <= n && v == Decimal(m)
  }

  /** The version keys of a profile are exactly "1" to their count. */
  ghost predicate Versions1ToN(d: Entries<(string, string, string), Hosted>, app: string, profile: string) {
    forall v :: Has(d, (app, profile, v)) <==> IsNumeral(v, Tally(d, OfProfile(app, profile)))
  }

  /** Creating a version keeps all stored versions exactly when the key made from the count
      is unused, or already holds the same record. */
  lemma CreateVersionKeeps(s: Stores, app: string, profile: string, record: Hosted)
    requires Has(s.profiles, (app, profile))
    ensures var key := (app, profile, Decimal(Tally(s.versions, OfProfile(app, profile)) + 1));
            var after := Step(s, CreateVersion(app, profile, record)).0.versions;
            (forall k :: Has(s.versions, k) ==> Get(after, k) == Get(s.versions, k)) <==>
            (Has(s.versions, key) ==> Get(s.versions, key) == Some(record))
  {
    var key := (app, profile, Decimal(Tally(s.versions, OfProfile(app, profile)) + 1));
    var after := Put(s.versions, key, record);
    forall k
      ensures Get(after, k) == if k == key then Some(record) else Get(s.versions, k)
    {
      PutGet(s.versions, key, record, k);
    }
    if Has(s.versions, key) && Get(s.versions, key) != Some(record) {
      assert Has(s.versions, key) && Get(after, key) != Get(s.versions, key);
    }
  }

  lemma NextVersionUnused(d: Entries<(string, string, string), Hosted>, app: string, profile: string)
    requires Versions1ToN(d, app, profile)
    ensures !Has(d, (app, profile, Decimal(Tally(d, OfProfile(app, profile)) + 1)))
  {
    var n := Tally(d, OfProfile(app, profile)) + 1;
    forall m: nat | 1 <= m <= n - 1
      ensures Decimal(n) != Decimal(m)
    {
      DecimalInjective(n, m);
    }
  }

  lemma OneMore(v: string, n: nat)
    requires n > 0
    ensures IsNumeral(v, n) <==> v == Decimal(n) || IsNumeral(v, n - 1)
  {
  }

  lemma NextVersionStored(d: Entries<(string, string, string), Hosted>, app: string, profile: string, record: Hosted)
    requires Versions1ToN(d, app, profile)
    ensures var n := Tally(d, OfProfile(app, profile)) + 1;
            Versions1ToN(Put(d, (app, profile, Decimal(n)), record), app, profile)
  {
    var n := Tally(d, OfProfile(app, profile)) + 1;
    var key := (app, profile, Decimal(n));
    NextVersionUnused(d, app, profile);
    TallyPut(d, key, record, OfProfile(app, profile));
    forall v
      ensures Has(Put(d, key, record), (app, profile, v)) <==> IsNumeral(v, n)
    {
      PutGet(d, key, record, (app, profile, v));
      OneMore(v, n);
    }
  }

  /** While the versions of a profile are numbered without gaps, creation uses a new key and
      keeps the numbering. */
  lemma CreateVersionExtends(s: Stores, app: string, profile: string, record: Hosted)
    requires Has(s.profiles, (app, profile)) && Versions1ToN(s.versions, app, profile)
    ensures var n := Tally(s.versions, OfProfile(app, profile)) + 1;
            var (after, reply) := Step(s, CreateVersion(app, profile, record));
            reply == Numbered(n) && !Has(s.versions, (app, profile, Decimal(n))) &&
            Versions1ToN(after.versions, app, profile)
  {
    NextVersionUnused(s.versions, app, profile);
    NextVersionStored(s.versions, app, profile, record);
  }

  /** Removing all of a profile's versions, or none of them, keeps its numbering. */
  lemma VersionsKeep(d: Entries<(string, string, string), Hosted>, keep: ((string, string, string)) -> bool,
                     app: string, profile: string, kept: bool)
    requires Versions1ToN(d, app, profile)
    requires forall k :: OfProfile(app, profile)(k) ==> keep(k) == kept
    ensures Versions1ToN(Keep(d, keep), app, profile)
  {
    var d' := Keep(d, keep);
    forall v
      ensures Has(d', (app, profile, v)) <==> kept && Has(d, (app, profile, v))
    {
      KeepGet(d, keep, (app, profile, v));
      assert OfProfile(app, profile)((app, profile, v));
    }
    if kept {
      TallyKeep(d, keep, OfProfile(app, profile));
    } else {
      forall k | OfProfile(app, profile)(k)
        ensures !Has(d', k)
      {
        KeepGet(d, keep, k);
      }
      TallyNone(d', OfProfile(app, profile));
    }
  }

  lemma VersionElsewhere(d: Entries<(string, string, string), Hosted>, k: (string, string, string), record: Hosted,
                         app: string, profile: string)
    requires Versions1ToN(d, app, profile) && !OfProfile(app, profile)(k)
    ensures Versions1ToN(Put(d, k, record), app, profile)
  {
    TallyPut(d, k, record, OfProfile(app, profile));
    forall v
      ensures Has(Put(d, k, record), (app, profile, v)) == Has(d, (app, profile, v))
    {
      PutGet(d, k, record, (app, profile, v));
    }
  }

  lemma VersionsStep(s: Stores, r: Request, app: string, profile: string)
    requires Versions1ToN(s.versions, app, profile) && !r.DeleteVersion?
    ensures Versions1ToN(Step(s, r).0.versions, app, profile)
  {
    match r
    case CreateVersion(a, p, record) =>
      if Has(s.profiles, (a, p)) {
        if a == app && p == profile {
          CreateVersionExtends(s, app, profile, record);
        } else {
          VersionElsewhere(s.versions, (a, p, Decimal(Tally(s.versions, OfProfile(a, p)) + 1)), record, app, profile);
        }
      }
    case DeleteProfile(a, p) => VersionsKeep(s.versions, VersionNotOf(a, p), app, profile, !(a == app && p == profile));
    case DeleteApplication(a) => VersionsKeep(s.versions, VersionOutside(a), app, profile, a != app);
    case _ =>
  }

  /** In every run that deletes no version, whatever else it creates and deletes, the versions of
      each profile are exactly 1..n. */
  lemma {:induction false} VersionsAre1ToN(reqs: seq<Request>, app: string, profile: string)
    requires forall i :: 0 <= i < |reqs| ==> !reqs[i].DeleteVersion?
    ensures Versions1ToN(Run(reqs).versions, app, profile)
  {
    if reqs != [] {
      var front := reqs[..|reqs| - 1];
      VersionsAre1ToN(front, app, profile);
      VersionsStep(Run(front), reqs[|reqs| - 1], app, profile);
    }
  }

  lemma RunAppend(reqs: seq<Request>, r: Request)
    ensures Run(reqs + [r]) == Step(Run(reqs), r).0
  {
    assert (reqs + [r])[..|reqs|] == reqs;
  }

  /** An application, a profile in it and two versions of that profile. */
  function TwoVersions(app: string, profile: string, first: Hosted, second: Hosted): seq<Request> {
    [CreateApplication("a", app)] + [CreateProfile(app, "p", profile)] + [CreateVersion(app, profile, first)] +
    [CreateVersion(app, profile, second)]
  }

  lemma TwoVersionsStored(app: string, profile: string, first: Hosted, second: Hosted)
    ensures Run(TwoVersions(app, profile, first, second)) == EMPTY.(
              apps := [(app, "a")],
              profiles := [((app, profile), "p")],
              versions := [((app, profile, "1"), first), ((app, profile, "2"), second)])
  {
    var r0, r1 := [CreateApplication("a", app)], [CreateProfile(app, "p", profile)];
    var r2, r3 := [CreateVersion(app, profile, first)], [CreateVersion(app, profile, second)];
    RunAppend([], r0[0]);
    assert [] + r0 == r0;
    RunAppend(r0, r1[0]);
    RunAppend(r0 + r1, r2[0]);
    RunAppend(r0 + r1 + r2, r3[0]);
    assert Decimal(1) == "1" && Decimal(2) == "2";
    var v1 := [((app, profile, "1"), first)];
    assert v1[1..] == [];
    assert Tally(v1, OfProfile(app, profile)) == 1;
    assert Put(v1, (app, profile, "2"), second) == [v1[0]] + [((app, profile, "2"), second)];
  }

  /** From the empty stores: after version 1 of two has been deleted, the next creation
      overwrites version 2. */
  lemma DeletionLetsCreationOverwrite(app: string, profile: string, first: Hosted, second: Hosted, third: Hosted)
    ensures var before := TwoVersions(app, profile, first, second) + [DeleteVersion(app, profile, "1")];
            Get(Run(before).versions, (app, profile, "2")) == Some(second) &&
            Step(Run(before), CreateVersion(app, profile, third)).1 == Numbered(2) &&
            Run(before + [CreateVersion(app, profile, third)]).versions == [((app, profile, "2"), third)]
  {
    var two := TwoVersions(app, profile, first, second);
    TwoVersionsStored(app, profile, first, second);
    RunAppend(two, DeleteVersion(app, profile, "1"));
    RunAppend(two + [DeleteVersion(app, profile, "1")], CreateVersion(app, profile, third));
    var vs := [((app, profile, "1"), first), ((app, profile, "2"), second)];
    assert vs[1..] == [((app, profile, "2"), second)] && vs[1..][1..] == [];
    assert Remove(vs, (app, profile, "1")) == vs[1..];
    assert Tally(vs[1..], OfProfile(app, profile)) == 1;
    assert Decimal(2) == "2";
  }

  // ---------------------------------------------------------------------
  // The service
  // ---------------------------------------------------------------------

  class Service {
    var apps: Entries<string, string>
    var envs: Entries<(string, string), string>
    var profiles: Entries<(string, string), string>
    var versions: Entries<(string, string, string), Hosted>
    var deployments: Entries<(string, string, nat), Deployment>
    var sessions: Entries<string, Session>

    function Contents(): Stores
      reads this
    {
      Stores(apps, envs, profiles, versions, deployments, sessions)
    }

    /** Every environment's deployment numbers are exactly 1 to n, in every state that the
        handlers leave. */
    ghost predicate Valid()
      reads this
    {
      Sound(Contents()) && UniqueKeys(apps)
    }

    constructor ()
      ensures Valid() && Contents() == EMPTY
    {
      apps, envs, profiles, versions, deployments, sessions := [], [], [], [], [], [];
      new;
      RunsAreSound([]);
    }

    method DeleteApplication(app: string) returns (reply: Reply)
      requires Valid()
      modifies this
      ensures Valid()
      ensures (Contents(), reply) == Step(old(Contents()), Request.DeleteApplication(app))
    {
      SoundStep(Contents(), Request.DeleteApplication(app));
      if !Has(apps, app) {
        return NotFound;
      }
      apps := Remove(apps, app);
      envs := Keep(envs, PairOutside(app));
      profiles := Keep(profiles, PairOutside(app));
      versions := Keep(versions, VersionOutside(app));
      deployments := Keep(deployments, DeploymentOutside(app));
      reply := Ok;
    }

    method StartDeployment(app: string, env: string, profile: string, version: string) returns (reply: Reply)
      requires Valid()
      modifies this
      ensures Valid()
      ensures (Contents(), reply) == Step(old(Contents()), Request.StartDeployment(app, env, profile, version))
    {
      ghost var before := Contents();
      SoundStep(before, Request.StartDeployment(app, env, profile, version));
      if !Has(apps, app) || !Has(envs, (app, env)) {
        return NotFound;
      }
      if profile != "" && !Has(profiles, (app, profile)) {
        return NotFound;
      }
      var existing := 0;
      for i := 0 to |deployments|
        invariant existing + Tally(deployments[i..], OfEnv(app, env)) == Tally(deployments, OfEnv(app, env))
        invariant Contents() == before
      {
        assert deployments[i..][1..] == deployments[i + 1..];
        if deployments[i].0.0 == app && deployments[i].0.1 == env {
          existing := existing + 1;
        }
      }
      var n := existing + 1;
      deployments := Put(deployments, (app, env, n), Deployment(n, profile, version, Complete));
      reply := Numbered(n);
    }

    method StopDeployment(app: string, env: string, number: nat) returns (reply: Reply)
      requires Valid()
      modifies this
      ensures Valid()
      ensures (Contents(), reply) == Step(old(Contents()), Request.StopDeployment(app, env, number))
    {
      SoundStep(Contents(), Request.StopDeployment(app, env, number));
      var d := Get(deployments, (app, env, number));
      if d.None? {
        return NotFound;
      }
      deployments := Put(deployments, (app, env, number), d.value.(state := RolledBack));
      reply := Ok;
    }

    method CreateVersion(app: string, profile: string, record: Hosted) returns (reply: Reply)
      requires Valid()
      modifies this
      ensures Valid()
      ensures (Contents(), reply) == Step(old(Contents()), Request.CreateVersion(app, profile, record))
    {
      SoundStep(Contents(), Request.CreateVersion(app, profile, record));
      if !Has(profiles, (app, profile)) {
        return NotFound;
      }
      var existing := 0;
      for i := 0 to |versions|
        invariant existing + Tally(versions[i..], OfProfile(app, profile)) == Tally(versions, OfProfile(app, profile))
        invariant Contents() == old(Contents())
      {
        assert versions[i..][1..] == versions[i + 1..];
        if versions[i].0.0 == app && versions[i].0.1 == profile {
          existing := existing + 1;
        }
      }
      versions := Put(versions, (app, profile, Decimal(existing + 1)), record);
      reply := Numbered(existing + 1);
    }

    method StartSession(appName: string, envName: string, profileName: string, token: string) returns (reply: Reply)
      requires Valid()
      modifies this
      ensures Valid()
      ensures (Contents(), reply) == Step(old(Contents()), Request.StartSession(appName, envName, profileName, token))
    {
      SoundStep(Contents(), Request.StartSession(appName, envName, profileName, token));
      if appName == "" || envName == "" || profileName == "" {
        return BadRequest;
      }
      var app := ResolveApp(Contents(), appName);
      if app.None? {
        return NotFound;
      }
      var env := ResolveIn(envs, app.value, envName);
      if env.None? {
        return NotFound;
      }
      var profile := ResolveIn(profiles, app.value, profileName);
      if profile.None? {
        return NotFound;
      }
      sessions := Put(sessions, token, Session(app.value, env.value, profile.value));
      reply := Opened(token);
    }

    method Poll(token: string, next: string) returns (reply: Reply)
      requires Valid()
      modifies this
      ensures Valid()
      ensures (Contents(), reply) == Step(old(Contents()), Request.Poll(token, next))
    {
      SoundStep(Contents(), Request.Poll(token, next));
      var session := Get(sessions, token);
      if session.None? {
        return BadRequest;
      }
      sessions := Remove(sessions, token);
      var latest: Option<Deployment> := None;
      for i := 0 to |deployments|
        invariant LatestFrom(deployments[i..], session.value, latest) == Latest(deployments, session.value)
        invariant Contents() == old(Contents()).(sessions := Remove(old(sessions), token))
      {
        assert deployments[i..][1..] == deployments[i + 1..];
        if Serves(deployments[i].0, deployments[i].1, session.value) {
          if latest.None? || deployments[i].1.number > latest.value.number {
            latest := Some(deployments[i].1);
          }
        }
      }
      var served := NOTHING;
      if latest.Some? {
        served := GetOr(Get(versions, (session.value.app, session.value.profile, latest.value.version)), NOTHING);
      }
      sessions := Put(sessions, next, session.value);
      reply := Config(latest, served, next);
    }
  }
}
