/** Server configuration from the process environment (config.go). The environment is a map;
    strconv.ParseFloat and time.ParseDuration are oracles; float64 is modelled only as far as
    comparisons see it, with NaN and the infinities. */
module Config {
  import opened Wrappers
  import opened Text

  type Env = map<string, string>

  /** os.Getenv: "" for an unset variable. */
  function Getenv(env: Env, key: string): string {
    if key in env then env[key] else ""
  }

  // ---------------------------------------------------------------- float64 comparisons

  /** A float64 as the clamps see it: a number (finite values are exact reals here), an
      infinity, or NaN. */
  datatype Float64 = Num(x: real) | PosInf | NegInf | NaN

  function Rank(f: Float64): int {
    match f
    case NegInf => 0
    case Num(_) => 1
    case PosInf => 2
    case NaN => 3
  }

  /** IEEE a < b: false whenever either side is NaN. */
  predicate Lt(a: Float64, b: Float64) {
    !a.NaN? && !b.NaN? && (if a.Num? && b.Num? then a.x < b.x else Rank(a) < Rank(b))
  }

  /** IEEE a <= b. */
  predicate Le(a: Float64, b: Float64) {
    !a.NaN? && !b.NaN? && !Lt(b, a)
  }

  // ---------------------------------------------------------------- clamps

  /** clampInt */
  function ClampInt(v: int, lo: int, hi: int): (r: int)
    ensures lo <= hi ==> lo <= r <= hi
    ensures lo <= v <= hi ==> r == v
  {
    if v < lo then lo else if v > hi then hi else v
  }

  /** With lo <= hi the result lies in [lo, hi], a value in range is kept, and clamping twice is
      clamping once. */
  lemma ClampIntRange(v: int, lo: int, hi: int)
    requires lo <= hi
    ensures lo <= ClampInt(v, lo, hi) <= hi
    ensures lo <= v <= hi ==> ClampInt(v, lo, hi) == v
    ensures ClampInt(ClampInt(v, lo, hi), lo, hi) == ClampInt(v, lo, hi)
  {
  }

  /** clampFloat */
  function ClampFloat(v: Float64, lo: Float64, hi: Float64): (r: Float64)
    ensures Le(lo, hi) && !v.NaN? ==> Le(lo, r) && Le(r, hi)
    ensures v.NaN? ==> r.NaN?
  {
    if Lt(v, lo) then lo else if Lt(hi, v) then hi else v
  }

  /** The same for floats, provided v is not NaN. */
  lemma ClampFloatRange(v: Float64, lo: Float64, hi: Float64)
    requires Le(lo, hi) && !v.NaN?
    ensures Le(lo, ClampFloat(v, lo, hi)) && Le(ClampFloat(v, lo, hi), hi)
    ensures Le(lo, v) && Le(v, hi) ==> ClampFloat(v, lo, hi) == v
    ensures ClampFloat(ClampFloat(v, lo, hi), lo, hi) == ClampFloat(v, lo, hi)
  {
  }

  /** Every comparison with NaN is false, so NaN passes through the clamp. */
  lemma ClampFloatNaN(lo: Float64, hi: Float64)
    ensures ClampFloat(NaN, lo, hi) == NaN
    ensures !Le(lo, ClampFloat(NaN, lo, hi))
  {
  }

  // ---------------------------------------------------------------- environment lookups

  /** envOr: the variable's value when it is non-empty, otherwise the fallback. */
  function EnvOr(env: Env, key: string, fallback: string): (r: string)
    ensures r == fallback || (key in env && r == env[key] && r != "")
    ensures key in env && env[key] != "" ==> r == env[key]
    ensures key !in env || env[key] == "" ==> r == fallback
  {
    var v := Getenv(env, key);
    if v != "" then v else fallback
  }

  /** A variable set to "" reads as unset. */
  lemma EnvOrEmptyIsUnset(env: Env, key: string, fallback: string)
    requires key in env && env[key] == ""
    ensures EnvOr(env, key, fallback) == EnvOr(env - {key}, key, fallback) == fallback
  {
  }

  /** envOrInt: the parsed value, or the fallback when the variable is empty or not a decimal
      int64. */
  function EnvOrInt(env: Env, key: string, fallback: int): (r: int)
    ensures Getenv(env, key) == "" || Atoi(Getenv(env, key)).None? ==> r == fallback
  {
    var v := Getenv(env, key);
    if v == "" then fallback
    else match Atoi(v)
      case None => fallback
      case Some(n) => n
  }

  /** Any int64 written in decimal reads back. */
  lemma EnvOrIntRoundTrip(env: Env, key: string, n: int, fallback: int)
    requires MinInt64 <= n <= MaxInt64 && key in env && env[key] == IntToString(n)
    ensures EnvOrInt(env, key, fallback) == n
  {
    IntToStringAtoi(n);
  }

  /** The library functions the loader calls. */
  datatype Parsers = Parsers(
    parseFloat: string -> Option<Float64>,
    parseDuration: string -> Result<int, string>)

  /** envOrFloat as written: whatever ParseFloat accepts, NaN included. */
  function EnvOrFloatAsWritten(env: Env, p: Parsers, key: string, fallback: Float64): (r: Float64)
    ensures Getenv(env, key) == "" ==> r == fallback
    ensures r == fallback || p.parseFloat(Getenv(env, key)) == Some(r)
  {
    var v := Getenv(env, key);
    if v == "" then fallback
    else match p.parseFloat(v)
      case None => fallback
      case Some(f) => f
  }

  /** envOrFloat as evidently intended: a NaN is as invalid as an unparsable value. */
  function EnvOrFloat(env: Env, p: Parsers, key: string, fallback: Float64): (r: Float64)
    ensures !fallback.NaN? ==> !r.NaN?
  {
    var v := Getenv(env, key);
    if v == "" then fallback
    else match p.parseFloat(v)
      case None => fallback
      case Some(f) => if f.NaN? then fallback else f
  }

  // ---------------------------------------------------------------- Load

  datatype ParticleConfig = ParticleConfig(
    count: int, speed: Float64, sizeMin: Float64, sizeMax: Float64, connectDistance: int,
    connectOpacity: Float64, pushRange: int, pushForce: Float64, pulseSpeed: Float64,
    color: string, colorAlt: string)

  /** Config; syncInterval is a time.Duration in nanoseconds. */
  datatype Config = Config(
    port: string, contentRepoURL: string, contentRepoBranch: string, contentDir: string,
    syncInterval: int, gitAuthToken: string, siteTitle: string, siteURL: string, devMode: bool,
    particles: ParticleConfig)

  /** Five minutes. */
  const DefaultSyncInterval: int := 5 * 60 * 1_000_000_000

  /** The SYNC_INTERVAL step as written: any duration ParseDuration accepts. */
  function SyncIntervalAsWritten(env: Env, p: Parsers): (r: Result<int, string>)
    ensures Getenv(env, "SYNC_INTERVAL") == "" ==> r == Success(DefaultSyncInterval)
    ensures r.Success? && Getenv(env, "SYNC_INTERVAL") != "" ==>
      p.parseDuration(Getenv(env, "SYNC_INTERVAL")) == Success(r.value)
  {
    var v := Getenv(env, "SYNC_INTERVAL");
    if v == "" then Success(DefaultSyncInterval)
    else match p.parseDuration(v)
      case Failure(e) => Failure("invalid SYNC_INTERVAL " + Quote(v) + ": " + e)
      case Success(d) => Success(d)
  }

  /** The SYNC_INTERVAL step as evidently intended: time.NewTicker needs a positive interval. */
  function SyncInterval(env: Env, p: Parsers): (r: Result<int, string>)
    ensures r.Success? ==> r.value > 0
  {
    var v := Getenv(env, "SYNC_INTERVAL");
    if v == "" then Success(DefaultSyncInterval)
    else match p.parseDuration(v)
      case Failure(e) => Failure("invalid SYNC_INTERVAL " + Quote(v) + ": " + e)
      case Success(d) => if d <= 0 then Failure("invalid SYNC_INTERVAL " + Quote(v) + ": not positive") else Success(d)
  }

  /** The particle settings, each read with its default and clamped, then the size fix-up. */
  function Particles(env: Env, float: (string, Float64) -> Float64): ParticleConfig {
    var pc := ParticleConfig(
      ClampInt(EnvOrInt(env, "PARTICLE_COUNT", 120), 1, 500),
      ClampFloat(float("PARTICLE_SPEED", Num(0.3)), Num(0.01), Num(10.0)),
      ClampFloat(float("PARTICLE_SIZE_MIN", Num(1.0)), Num(0.1), Num(20.0)),
      ClampFloat(float("PARTICLE_SIZE_MAX", Num(2.5)), Num(0.1), Num(20.0)),
      ClampInt(EnvOrInt(env, "PARTICLE_CONNECT_DISTANCE", 140), 10, 1000),
      ClampFloat(float("PARTICLE_CONNECT_OPACITY", Num(0.08)), Num(0.0), Num(1.0)),
      ClampInt(EnvOrInt(env, "PARTICLE_PUSH_RANGE", 180), 10, 1000),
      ClampFloat(float("PARTICLE_PUSH_FORCE", Num(0.015)), Num(0.001), Num(1.0)),
      ClampFloat(float("PARTICLE_PULSE_SPEED", Num(0.008)), Num(0.0001), Num(0.1)),
      EnvOr(env, "PARTICLE_COLOR", "79,209,197"),
      EnvOr(env, "PARTICLE_COLOR_ALT", "128,90,213"));
    if Lt(pc.sizeMax, pc.sizeMin) then pc.(sizeMax := pc.sizeMin) else pc
  }

  function Assemble(env: Env, repoURL: string, interval: int, particles: ParticleConfig): Config {
    Config(
      EnvOr(env, "PORT", "8080"), repoURL, EnvOr(env, "CONTENT_REPO_BRANCH", "main"),
      EnvOr(env, "CONTENT_DIR", "/data/content"), interval, Getenv(env, "GIT_AUTH_TOKEN"),
      EnvOr(env, "SITE_TITLE", "William Findlay"), EnvOr(env, "SITE_URL", "https://williamfindlay.com"),
      Getenv(env, "DEV_MODE") == "true", particles)
  }

  function FloatReaderAsWritten(env: Env, p: Parsers): (string, Float64) -> Float64 {
    (k, f) => EnvOrFloatAsWritten(env, p, k, f)
  }

  function FloatReader(env: Env, p: Parsers): (string, Float64) -> Float64 {
    (k, f) => EnvOrFloat(env, p, k, f)
  }

  /** The particle settings Load reads: the integer ones in range, and the sizes ordered and
      within their bounds. */
  lemma ParticlesInRange(env: Env, p: Parsers)
    ensures var pc := Particles(env, FloatReader(env, p));
      1 <= pc.count <= 500 && 10 <= pc.connectDistance <= 1000 && 10 <= pc.pushRange <= 1000
      && Le(Num(0.1), pc.sizeMin) && Le(pc.sizeMin, pc.sizeMax) && Le(pc.sizeMax, Num(20.0))
  {
    ClampFloatRange(EnvOrFloat(env, p, "PARTICLE_SIZE_MIN", Num(1.0)), Num(0.1), Num(20.0));
    ClampFloatRange(EnvOrFloat(env, p, "PARTICLE_SIZE_MAX", Num(2.5)), Num(0.1), Num(20.0));
  }

  /** Load as written. */
  function LoadAsWritten(env: Env, p: Parsers): (r: Result<Config, string>)
    ensures r.Success? <==> Getenv(env, "CONTENT_REPO_URL") != "" && SyncIntervalAsWritten(env, p).Success?
    ensures r.Success? ==> r.value.contentRepoURL == Getenv(env, "CONTENT_REPO_URL")
  {
    var repoURL := Getenv(env, "CONTENT_REPO_URL");
    if repoURL == "" then Failure("CONTENT_REPO_URL is required")
    else match SyncIntervalAsWritten(env, p)
      case Failure(e) => Failure(e)
      case Success(d) => Success(Assemble(env, repoURL, d, Particles(env, FloatReaderAsWritten(env, p))))
  }

  /** Load with the two corrections: NaN settings fall back to their defaults, and a non-positive
      SYNC_INTERVAL is refused. */
  function Load(env: Env, p: Parsers): (r: Result<Config, string>)
    ensures r.Success? <==> Getenv(env, "CONTENT_REPO_URL") != "" && SyncInterval(env, p).Success?
    ensures r.Success? ==> r.value.contentRepoURL == Getenv(env, "CONTENT_REPO_URL") && r.value.syncInterval > 0
  {
    var repoURL := Getenv(env, "CONTENT_REPO_URL");
    if repoURL == "" then Failure("CONTENT_REPO_URL is required")
    else match SyncInterval(env, p)
      case Failure(e) => Failure(e)
      case Success(d) => Success(Assemble(env, repoURL, d, Particles(env, FloatReader(env, p))))
  }

  /** Load fails exactly when CONTENT_REPO_URL is empty or unset, or SYNC_INTERVAL is set but
      not a valid positive duration; the URL is checked first, and an unset interval is five
      minutes. */
  lemma LoadFailures(env: Env, p: Parsers)
    ensures Getenv(env, "CONTENT_REPO_URL") == "" ==> Load(env, p) == Failure("CONTENT_REPO_URL is required")
    ensures Load(env, p).Failure? <==>
      Getenv(env, "CONTENT_REPO_URL") == "" || SyncInterval(env, p).Failure?
    ensures Getenv(env, "CONTENT_REPO_URL") != "" && Getenv(env, "SYNC_INTERVAL") == "" ==>
      Load(env, p).Success? && Load(env, p).value.syncInterval == DefaultSyncInterval
    ensures (Getenv(env, "CONTENT_REPO_URL") != "" && Getenv(env, "SYNC_INTERVAL") != ""
             && p.parseDuration(Getenv(env, "SYNC_INTERVAL")).Failure?) ==>
      Load(env, p) == Failure("invalid SYNC_INTERVAL " + Quote(Getenv(env, "SYNC_INTERVAL")) + ": "
        + p.parseDuration(Getenv(env, "SYNC_INTERVAL")).error)
  {
  }

  /** A loaded configuration: the settings come from their variables or defaults, DEV_MODE is on
      only for exactly "true", the sync interval is positive, the integer settings are in range,
      and the largest particle is never smaller than the smallest. */
  lemma LoadedConfig(env: Env, p: Parsers)
    requires Load(env, p).Success?
    ensures var c := Load(env, p).value;
      c.contentRepoURL == Getenv(env, "CONTENT_REPO_URL") != ""
      && c.port == EnvOr(env, "PORT", "8080")
      && c.contentRepoBranch == EnvOr(env, "CONTENT_REPO_BRANCH", "main")
      && c.contentDir == EnvOr(env, "CONTENT_DIR", "/data/content")
      && c.gitAuthToken == Getenv(env, "GIT_AUTH_TOKEN")
      && c.siteTitle == EnvOr(env, "SITE_TITLE", "William Findlay")
      && c.siteURL == EnvOr(env, "SITE_URL", "https://williamfindlay.com")
      && c.particles.color == EnvOr(env, "PARTICLE_COLOR", "79,209,197")
      && c.particles.colorAlt == EnvOr(env, "PARTICLE_COLOR_ALT", "128,90,213")
      && (c.devMode <==> Getenv(env, "DEV_MODE") == "true")
      && c.syncInterval > 0
      && 1 <= c.particles.count <= 500
      && 10 <= c.particles.connectDistance <= 1000
      && 10 <= c.particles.pushRange <= 1000
      && Le(Num(0.1), c.particles.sizeMin) && Le(c.particles.sizeMin, c.particles.sizeMax)
      && Le(c.particles.sizeMax, Num(20.0))
  {
    ParticlesInRange(env, p);
  }

  /** As written, PARTICLE_SIZE_MAX=NaN (which strconv.ParseFloat accepts) loads with a largest
      particle size that is not at least the smallest. */
  lemma SizeMaxNaNAsWritten(env: Env, p: Parsers)
    requires Getenv(env, "CONTENT_REPO_URL") != "" && Getenv(env, "SYNC_INTERVAL") == ""
    requires Getenv(env, "PARTICLE_SIZE_MAX") == "NaN" && p.parseFloat("NaN") == Some(NaN)
    ensures LoadAsWritten(env, p).Success?
    ensures LoadAsWritten(env, p).value.particles.sizeMax == NaN
    ensures !Le(LoadAsWritten(env, p).value.particles.sizeMin, LoadAsWritten(env, p).value.particles.sizeMax)
  {
  }

  /** As written, SYNC_INTERVAL=0s loads with a zero interval, which time.NewTicker rejects with
      a panic when the background sync starts. */
  lemma ZeroIntervalAsWritten(env: Env, p: Parsers)
    requires Getenv(env, "CONTENT_REPO_URL") != "" && Getenv(env, "SYNC_INTERVAL") == "0s"
    requires p.parseDuration("0s") == Success(0)
    ensures LoadAsWritten(env, p).Success? && LoadAsWritten(env, p).value.syncInterval == 0
    ensures Load(env, p).Failure?
  {
  }

  /** The floating-point settings Load reads. */
  const FloatKeys: seq<string> := [
    "PARTICLE_SPEED", "PARTICLE_SIZE_MIN", "PARTICLE_SIZE_MAX", "PARTICLE_CONNECT_OPACITY",
    "PARTICLE_PUSH_FORCE", "PARTICLE_PULSE_SPEED"]

  /** No floating-point setting is NaN. */
  predicate NoNaNSetting(env: Env, p: Parsers) {
    forall k :: k in FloatKeys ==> Getenv(env, k) == "" || p.parseFloat(Getenv(env, k)) != Some(NaN)
  }

  lemma FloatReadersAgree(env: Env, p: Parsers, k: string, f: Float64)
    requires NoNaNSetting(env, p) && k in FloatKeys
    ensures FloatReader(env, p)(k, f) == FloatReaderAsWritten(env, p)(k, f)
  {
  }

  lemma ParticlesAgree(env: Env, p: Parsers)
    requires NoNaNSetting(env, p)
    ensures Particles(env, FloatReader(env, p)) == Particles(env, FloatReaderAsWritten(env, p))
  {
    FloatReadersAgree(env, p, FloatKeys[0], Num(0.3));
    FloatReadersAgree(env, p, FloatKeys[1], Num(1.0));
    FloatReadersAgree(env, p, FloatKeys[2], Num(2.5));
    FloatReadersAgree(env, p, FloatKeys[3], Num(0.08));
    FloatReadersAgree(env, p, FloatKeys[4], Num(0.015));
    FloatReadersAgree(env, p, FloatKeys[5], Num(0.008));
  }

  /** The corrections change nothing for an environment that sets no floating-point setting to
      NaN and SYNC_INTERVAL to no non-positive duration. */
  lemma CorrectionsConservative(env: Env, p: Parsers)
    requires NoNaNSetting(env, p)
    requires SyncIntervalAsWritten(env, p).Success? ==> SyncIntervalAsWritten(env, p).value > 0
    ensures LoadAsWritten(env, p) == Load(env, p)
  {
    ParticlesAgree(env, p);
    IntervalsAgree(env, p);
    var repoURL := Getenv(env, "CONTENT_REPO_URL");
    if repoURL != "" && SyncInterval(env, p).Success? {
      assert Load(env, p) == Success(Assemble(env, repoURL, SyncInterval(env, p).value,
        Particles(env, FloatReader(env, p))));
    }
  }

  /** The interval step's correction changes nothing when no non-positive duration is given. */
  lemma IntervalsAgree(env: Env, p: Parsers)
    requires SyncIntervalAsWritten(env, p).Success? ==> SyncIntervalAsWritten(env, p).value > 0
    ensures SyncInterval(env, p) == SyncIntervalAsWritten(env, p)
  {
  }
}
