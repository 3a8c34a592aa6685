/** The settings record of main/settings.c, its validation and its defaults. */
module Settings {
  import opened Common
  import Protocol

  /** `frame_settings_t`: each string is the bytes before its terminator. A field
      whose array holds no terminator is as long as its array. */
  datatype FrameSettings = FrameSettings(
    ssid: CString, password: CString, tenant: CString, client: CString, ntp: CString,
    pollSeconds: int, staleSeconds: int, brightness: int)

  const SSID_SIZE := 33
  const PASSWORD_SIZE := 65
  const IDENTITY_SIZE := 37
  const NTP_SIZE := 254

  datatype Field =
    | Ssid | Password | Tenant | Client | Ntp | PollSeconds | StaleSeconds | Brightness

  predicate PasswordCharacterValid(c: byte, hex: bool) {
    if hex then Protocol.IsHex(c) else 32 <= c <= 126
  }

  predicate PasswordValid(password: CString) {
    var n := |password|;
    n == 0 ||
    (8 <= n <= 64 && forall i | 0 <= i < n :: PasswordCharacterValid(password[i], n == 64))
  }

  predicate NtpHostValid(host: CString) {
    && host != []
    && forall i | 0 <= i < |host| ::
      Protocol.IsAlnum(host[i]) || host[i] == '.' as int || host[i] == '-' as int
  }

  predicate InRange(value: int, minimum: int, maximum: int) {
    minimum <= value <= maximum
  }

  function InvalidRange(s: FrameSettings): Option<Field> {
    if !InRange(s.pollSeconds, 2, 300) then Some(PollSeconds)
    else if !InRange(s.staleSeconds, 30, 3600) then Some(StaleSeconds)
    else if s.staleSeconds <= s.pollSeconds then Some(StaleSeconds)
    else if !InRange(s.brightness, 1, 100) then Some(Brightness)
    else None
  }

  function UnterminatedField(s: FrameSettings): Option<Field> {
    if |s.ssid| >= SSID_SIZE then Some(Ssid)
    else if |s.password| >= PASSWORD_SIZE then Some(Password)
    else if |s.tenant| >= IDENTITY_SIZE then Some(Tenant)
    else if |s.client| >= IDENTITY_SIZE then Some(Client)
    else if |s.ntp| >= NTP_SIZE then Some(Ntp)
    else None
  }

  predicate IdentityValid(value: CString, complete: bool) {
    if !complete && value == [] then true else Protocol.GuidValid(value)
  }

  function InvalidConnection(s: FrameSettings, complete: bool): Option<Field> {
    if !PasswordValid(s.password) then Some(Password)
    else if complete && s.ssid == [] then Some(Ssid)
    else if !IdentityValid(s.tenant, complete) then Some(Tenant)
    else if !IdentityValid(s.client, complete) then Some(Client)
    else if !NtpHostValid(s.ntp) then Some(Ntp)
    else None
  }

  function InvalidField(s: FrameSettings, complete: bool): Option<Field> {
    var unterminated := UnterminatedField(s);
    if unterminated.Some? then unterminated
    else
      var connection := InvalidConnection(s, complete);
      if connection.Some? then connection else InvalidRange(s)
  }

  predicate SettingsValid(s: FrameSettings, complete: bool) {
    InvalidField(s, complete).None?
  }

  /// Identity and change tests

  /** The Entra application a refresh token belongs to. */
  datatype Identity = Identity(tenant: CString, client: CString)

  function IdentityOf(s: FrameSettings): Identity {
    Identity(s.tenant, s.client)
  }

  predicate IdentityChanged(a: FrameSettings, b: FrameSettings) {
    a.tenant != b.tenant || a.client != b.client
  }

  predicate WifiChanged(a: FrameSettings, b: FrameSettings) {
    a.ssid != b.ssid || a.password != b.password
  }

  predicate RestartRequired(s: FrameSettings, current: FrameSettings) {
    || WifiChanged(s, current) || IdentityChanged(s, current)
    || s.ntp != current.ntp || s.pollSeconds != current.pollSeconds
    || s.staleSeconds != current.staleSeconds
  }

  predicate WifiStringsValid(ssid: CString, password: CString) {
    ssid != [] && |ssid| <= 32 && |password| <= 64
  }

  /// Defaults

  /** The compiled configuration; it does not change between boots. */
  datatype Config = Config(
    ssid: CString, password: CString, tenant: CString, client: CString, ntp: CString,
    pollSeconds: int, staleSeconds: int, brightness: int)

  /** `snprintf` into an array of `size` bytes. */
  function Truncated(s: CString, size: nat): CString
    requires size > 0
  {
    if |s| < size then s else s[..size - 1]
  }

  const POOL: CString := [
    'p' as int, 'o' as int, 'o' as int, 'l' as int, '.' as int, 'n' as int, 't' as int, 'p' as int,
    '.' as int, 'o' as int, 'r' as int, 'g' as int]

  const RECOVERY := FrameSettings([], [], [], [], POOL, 10, 60, 100)

  function Defaults(cfg: Config): FrameSettings {
    var s := FrameSettings(
      Truncated(cfg.ssid, SSID_SIZE), Truncated(cfg.password, PASSWORD_SIZE),
      Truncated(cfg.tenant, IDENTITY_SIZE), Truncated(cfg.client, IDENTITY_SIZE),
      Truncated(cfg.ntp, NTP_SIZE), cfg.pollSeconds, cfg.staleSeconds, cfg.brightness);
    if SettingsValid(s, false) then s else RECOVERY
  }

  /// The stored record

  /** `settings_record_t`; the three flags are bytes of flash and may hold anything. */
  datatype Record = Record(
    version: nat, active: FrameSettings, candidate: FrameSettings,
    pending: byte, tried: byte, resetAuth: byte)

  predicate RecordValid(r: Record) {
    && r.version == 1
    && r.pending <= 1 && r.tried <= 1 && r.resetAuth <= 1
    && SettingsValid(r.active, false)
    && (r.pending == 0 || (SettingsValid(r.candidate, false) && r.candidate.ssid != []))
  }

  /** A stored record is one of version 1 whose flags are 0 or 1, with a usable form and,
      during a trial, a usable candidate that names a network. */
  lemma RecordValidIff(r: Record)
    ensures RecordValid(r) <==>
              && r.version == 1
              && (r.pending == 0 || r.pending == 1) && (r.tried == 0 || r.tried == 1)
              && (r.resetAuth == 0 || r.resetAuth == 1)
              && IsForm(r.active, false)
              && (r.pending == 1 ==> IsForm(r.candidate, false) && r.candidate.ssid != [])
  {
    hide SettingsValid, IsForm;
    FormValidIff(r.active, false);
    FormValidIff(r.candidate, false);
  }

  const ZERO_SETTINGS := FrameSettings([], [], [], [], [], 0, 0, 0)

  function FreshRecord(cfg: Config): Record {
    Record(1, Defaults(cfg), ZERO_SETTINGS, 0, 0, 0)
  }

  /// Facts about validation

  /** A form accepted as complete is also acceptable to the incomplete check that
      guards every stored record. */
  lemma CompleteImpliesIncomplete(s: FrameSettings)
    requires SettingsValid(s, true)
    ensures SettingsValid(s, false) && s.ssid != [] && 1 <= s.brightness <= 100
  {
  }

  lemma ValidBrightness(s: FrameSettings, complete: bool)
    requires SettingsValid(s, complete)
    ensures 1 <= s.brightness <= 100
  {
  }

  /** Validity is a conjunction of independent facts about the fields, so replacing
      the brightness of valid settings by another legal one keeps them valid. */
  lemma BrightnessIndependent(s: FrameSettings, brightness: int, complete: bool)
    requires SettingsValid(s, complete)
    ensures SettingsValid(s.(brightness := brightness), complete) <==> 1 <= brightness <= 100
  {
  }

  /** A password of the WPA standard: none, 8 to 63 printable characters, or a key of 64
      hexadecimal digits. */
  ghost predicate IsPassword(p: seq<byte>) {
    || p == []
    || (8 <= |p| <= 63 && forall c | c in p :: 32 <= c <= 126)
    || Protocol.HexGroup(p, 64)
  }

  ghost predicate IsHostName(host: seq<byte>) {
    && 1 <= |host| <= 253
    && forall c | c in host :: 48 <= c <= 57 || 65 <= c <= 90 || 97 <= c <= 122 || c == 45 || c == 46
  }

  /** What the settings page and the stored record demand of a form. */
  ghost predicate IsForm(s: FrameSettings, complete: bool) {
    && |s.ssid| <= 32 && (complete ==> s.ssid != [])
    && IsPassword(s.password)
    && ((!complete && s.tenant == []) || Protocol.IsGuid(s.tenant))
    && ((!complete && s.client == []) || Protocol.IsGuid(s.client))
    && IsHostName(s.ntp)
    && 2 <= s.pollSeconds <= 300 && 30 <= s.staleSeconds <= 3600 && s.pollSeconds < s.staleSeconds
    && 1 <= s.brightness <= 100
  }

  lemma PasswordValidIff(p: CString)
    ensures PasswordValid(p) <==> IsPassword(p)
  {
    if PasswordValid(p) && p != [] {
      forall c | c in p
        ensures PasswordCharacterValid(c, |p| == 64)
      {
        var i :| 0 <= i < |p| && p[i] == c;
      }
    }
    if IsPassword(p) {
      forall i | 0 <= i < |p|
        ensures PasswordCharacterValid(p[i], |p| == 64)
      {
        assert p[i] in p;
      }
    }
  }

  lemma NtpHostValidIff(host: CString)
    ensures NtpHostValid(host) && |host| < NTP_SIZE <==> IsHostName(host)
  {
    if NtpHostValid(host) {
      forall c | c in host
        ensures 48 <= c <= 57 || 65 <= c <= 90 || 97 <= c <= 122 || c == 45 || c == 46
      {
        var i :| 0 <= i < |host| && host[i] == c;
      }
    }
    if IsHostName(host) {
      forall i | 0 <= i < |host|
        ensures Protocol.IsAlnum(host[i]) || host[i] == '.' as int || host[i] == '-' as int
      {
        assert host[i] in host;
      }
    }
  }

  lemma GuidLength(value: CString)
    requires Protocol.IsGuid(value)
    ensures |value| == 36
  {
    Protocol.GuidByte(value, 0);
  }

  /** Validation accepts exactly the forms. */
  lemma FormValidIff(s: FrameSettings, complete: bool)
    ensures SettingsValid(s, complete) <==> IsForm(s, complete)
  {
    hide PasswordValid, IsPassword, NtpHostValid, IsHostName, Protocol.GuidValid, Protocol.IsGuid;
    PasswordValidIff(s.password);
    NtpHostValidIff(s.ntp);
    Protocol.GuidValidIff(s.tenant);
    Protocol.GuidValidIff(s.client);
    if Protocol.IsGuid(s.tenant) {
      GuidLength(s.tenant);
    }
    if Protocol.IsGuid(s.client) {
      GuidLength(s.client);
    }
    ShortPassword(s.password);
  }

  lemma ShortPassword(p: CString)
    ensures IsPassword(p) ==> |p| <= 64
    ensures |p| >= PASSWORD_SIZE ==> !PasswordValid(p)
  {
  }

  /** The first `n` bytes. */
  function Cut(s: CString, n: nat): CString {
    if |s| <= n then s else s[..n]
  }

  /** The compiled settings, cut to the size of their fields, are used as they are if they
      form a valid form; else the device starts without network and identity. */
  lemma DefaultsAreCompiled(cfg: Config)
    ensures var s := FrameSettings(Cut(cfg.ssid, 32), Cut(cfg.password, 64), Cut(cfg.tenant, 36),
                                   Cut(cfg.client, 36), Cut(cfg.ntp, 253),
                                   cfg.pollSeconds, cfg.staleSeconds, cfg.brightness);
            Defaults(cfg) == if IsForm(s, false) then s else FrameSettings([], [], [], [], POOL, 10, 60, 100)
    ensures IsForm(Defaults(cfg), false)
  {
    hide SettingsValid, IsForm;
    DefaultsValid(cfg);
    FormValidIff(Defaults(cfg), false);
    var s := FrameSettings(Cut(cfg.ssid, 32), Cut(cfg.password, 64), Cut(cfg.tenant, 36),
                           Cut(cfg.client, 36), Cut(cfg.ntp, 253),
                           cfg.pollSeconds, cfg.staleSeconds, cfg.brightness);
    FormValidIff(s, false);
  }

  /** The defaults fall back to the recovery settings only when the compiled ones are
      unusable, and either way a record built on them is valid. */
  lemma DefaultsValid(cfg: Config)
    ensures SettingsValid(Defaults(cfg), false)
    ensures RecordValid(FreshRecord(cfg))
  {
  }
}
