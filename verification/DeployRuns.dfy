/** The encryption key over repeated deployments: read, assembled, staged, written, read again. */
module DeployRuns {
  import opened Wrappers
  import opened Text
  import opened ShellEnv

  const MASTER_KEY := "CRYPTO_MASTER_KEY"
  const GRAPH_KEYS := ["PRIVACY_MAILBOX", "GRAPH_TENANT_ID", "GRAPH_CLIENT_ID", "GRAPH_CLIENT_SECRET"]
  const OPERATOR_KEYS := GRAPH_KEYS + ["EMAIL_PROVIDER", "COOKIE_SECURE"]
  const GENERATED_KEYS := ["DB_PASS", "APP_PASS", MASTER_KEY]
  const DEPLOY_SECRET_KEYS := ["DB_PASS", "APP_PASS", MASTER_KEY, "COOKIE_SECURE", "EMAIL_PROVIDER"] + GRAPH_KEYS

  // ---- the key's form ----------------------------------------------------------------------

  predicate IsBase64Char(c: char) { 'A' <= c <= 'Z' || 'a' <= c <= 'z' || '0' <= c <= '9' || c == '+' || c == '/' }

  function Pads(s: string): nat {
    if |s| >= 2 && s[|s| - 2] == '=' && s[|s| - 1] == '=' then 2 else if s != "" && s[|s| - 1] == '=' then 1 else 0
  }

  /** Base64 with padding (RFC 4648, section 4). */
  predicate IsBase64(s: string) { |s| % 4 == 0 && forall i :: 0 <= i < |s| - Pads(s) ==> IsBase64Char(s[i]) }

  function DecodedLen(s: string): int { |s| / 4 * 3 - Pads(s) }

  datatype KeyError = Empty | NotBase64 | WrongLength(decoded: int)

  function ValidateMasterKey(raw: string): Option<KeyError> {
    var candidate := Trim(raw);
    if candidate == "" then Some(Empty)
    else if !IsBase64(candidate) then Some(NotBase64)
    else if DecodedLen(candidate) != 32 then Some(WrongLength(DecodedLen(candidate)))
    else None
  }

  /** Nothing in a key is lost to trimming, quoting or line breaks. */
  predicate IsPlain(s: string) { s != "" && forall i :: 0 <= i < |s| ==> IsBase64Char(s[i]) || s[i] == '=' }

  lemma ValidKeyIsPlain(raw: string)
    requires ValidateMasterKey(raw).None?
    ensures IsPlain(Trim(raw))
  {
    var s := Trim(raw);
    forall i | 0 <= i < |s| ensures IsBase64Char(s[i]) || s[i] == '=' {
      if i >= |s| - Pads(s) { assert s[i] == '='; }
    }
  }

  /** A key is taken exactly if, trimmed, it is 43 base64 characters and one equals sign. */
  lemma KeyIsValidExactly(raw: string)
    ensures var s := Trim(raw);
            ValidateMasterKey(raw).None?
            <==> |s| == 44 && s[43] == '=' && forall i :: 0 <= i < 43 ==> IsBase64Char(s[i])
  {
    var s := Trim(raw);
    if |s| == 44 && s[43] == '=' && s[42] == '=' { assert !IsBase64Char(s[42]); }
  }

  /** A 64-character hex string is valid base64, of the wrong length. */
  lemma HexKeyIsRefused(s: string)
    requires |s| == 64 && forall i :: 0 <= i < 64 ==> '0' <= s[i] <= '9' || 'a' <= s[i] <= 'f'
    ensures ValidateMasterKey(s) == Some(WrongLength(48))
  {
    assert Trim(s) == s;
    assert Pads(s) == 0;
  }

  lemma PlainReadsAsItself(v: string)
    requires IsPlain(v)
    ensures Trim(v) == v && Unquoted(v) == v && '\n' !in v
  {
  }

  // ---- assembling the environment ------------------------------------------------------------------

  /** The operator's non-blank values replace what is installed. */
  function WithOperator(env: Env, operator: Env, keys: seq<string>, n: nat): Env
    requires n <= |keys|
  {
    if n == 0 then env
    else
      var front, value := WithOperator(env, operator, keys, n - 1), Trim(Get(operator, keys[n - 1]));
      if value == "" then front else front[keys[n - 1] := value]
  }

  /** Only a blank key is generated. */
  function WithGenerated(env: Env, minted: Env, keys: seq<string>, n: nat): Env
    requires n <= |keys|
  {
    if n == 0 then env
    else
      var front := WithGenerated(env, minted, keys, n - 1);
      if Trim(Get(front, keys[n - 1])) != "" then front else front[keys[n - 1] := Get(minted, keys[n - 1])]
  }

  function Assembled(installed: Env, operator: Env, minted: Env): Env {
    var env := WithOperator(installed, operator, OPERATOR_KEYS, |OPERATOR_KEYS|);
    WithGenerated(env, minted, GENERATED_KEYS, |GENERATED_KEYS|)
  }

  /** The keys that get a new value. */
  function NewKeys(env: Env, minted: Env, keys: seq<string>, n: nat): seq<string>
    requires n <= |keys|
  {
    if n == 0 then []
    else NewKeys(env, minted, keys, n - 1)
         + if Trim(Get(WithGenerated(env, minted, keys, n - 1), keys[n - 1])) != "" then [] else [keys[n - 1]]
  }

  method AssembleEnv(installed: Env, operator: Env, minted: Env) returns (env: Env, generated: seq<string>)
    ensures env == Assembled(installed, operator, minted)
    ensures generated == NewKeys(WithOperator(installed, operator, OPERATOR_KEYS, |OPERATOR_KEYS|), minted,
                                 GENERATED_KEYS, |GENERATED_KEYS|)
  {
    env := TakeOperator(installed, operator, OPERATOR_KEYS);
    env, generated := Generate(env, minted, GENERATED_KEYS);
  }

  method TakeOperator(installed: Env, operator: Env, keys: seq<string>) returns (env: Env)
    ensures env == WithOperator(installed, operator, keys, |keys|)
  {
    env := installed;
    for i := 0 to |keys|
      invariant env == WithOperator(installed, operator, keys, i)
    {
      var value := Trim(Get(operator, keys[i]));
      if value != "" { env := env[keys[i] := value]; }
    }
  }

  method Generate(before: Env, minted: Env, keys: seq<string>) returns (env: Env, generated: seq<string>)
    ensures env == WithGenerated(before, minted, keys, |keys|)
    ensures generated == NewKeys(before, minted, keys, |keys|)
  {
    env, generated := before, [];
    for i := 0 to |keys|
      invariant env == WithGenerated(before, minted, keys, i)
      invariant generated == NewKeys(before, minted, keys, i)
    {
      if Trim(Get(env, keys[i])) != "" { continue; }
      env := env[keys[i] := Get(minted, keys[i])];
      generated := generated + [keys[i]];
    }
  }

  lemma {:induction false} OperatorLeaves(env: Env, operator: Env, keys: seq<string>, n: nat, key: string)
    requires n <= |keys| && key !in keys
    ensures Get(WithOperator(env, operator, keys, n), key) == Get(env, key)
  {
    if n == 0 {
    } else {
      OperatorLeaves(env, operator, keys, n - 1, key);
      assert keys[n - 1] in keys;
    }
  }

  lemma {:induction false} GeneratedLeaves(env: Env, minted: Env, keys: seq<string>, n: nat, key: string)
    requires n <= |keys| && Trim(Get(env, key)) != ""
    ensures Get(WithGenerated(env, minted, keys, n), key) == Get(env, key)
  {
    if n == 0 {
    } else {
      GeneratedLeaves(env, minted, keys, n - 1, key);
    }
  }

  lemma {:induction false} GeneratedFills(env: Env, minted: Env, keys: seq<string>, n: nat, key: string)
    requires n <= |keys| && key in keys[..n] && Trim(Get(env, key)) == ""
    ensures Get(WithGenerated(env, minted, keys, n), key) == Get(minted, key)
  {
    if keys[n - 1] == key && key !in keys[..n - 1] {
      StillBlank(env, minted, keys, n - 1, key);
    } else {
      GeneratedFills(env, minted, keys, n - 1, key);
    }
  }

  lemma {:induction false} StillBlank(env: Env, minted: Env, keys: seq<string>, n: nat, key: string)
    requires n <= |keys| && key !in keys[..n]
    ensures Get(WithGenerated(env, minted, keys, n), key) == Get(env, key)
  {
    if n == 0 {
    } else {
      assert keys[..n][n - 1] == keys[n - 1];
      StillBlank(env, minted, keys, n - 1, key);
    }
  }

  lemma MasterKeyIsNotTheOperators()
    ensures MASTER_KEY !in OPERATOR_KEYS
  {
    assert forall i :: 0 <= i < |OPERATOR_KEYS| ==> |OPERATOR_KEYS[i]| != |MASTER_KEY|;
  }

  /** What is on the box is kept: nothing an operator's file says changes an installed key. */
  lemma InstalledKeyIsKept(installed: Env, operator: Env, minted: Env)
    requires Trim(Get(installed, MASTER_KEY)) != ""
    ensures Get(Assembled(installed, operator, minted), MASTER_KEY) == Get(installed, MASTER_KEY)
  {
    var env := WithOperator(installed, operator, OPERATOR_KEYS, |OPERATOR_KEYS|);
    MasterKeyIsNotTheOperators();
    OperatorLeaves(installed, operator, OPERATOR_KEYS, |OPERATOR_KEYS|, MASTER_KEY);
    GeneratedLeaves(env, minted, GENERATED_KEYS, |GENERATED_KEYS|, MASTER_KEY);
  }

  /** Only a box without a key gets a new one. */
  lemma MissingKeyIsGenerated(installed: Env, operator: Env, minted: Env)
    requires Trim(Get(installed, MASTER_KEY)) == ""
    ensures Get(Assembled(installed, operator, minted), MASTER_KEY) == Get(minted, MASTER_KEY)
  {
    var env := WithOperator(installed, operator, OPERATOR_KEYS, |OPERATOR_KEYS|);
    MasterKeyIsNotTheOperators();
    OperatorLeaves(installed, operator, OPERATOR_KEYS, |OPERATOR_KEYS|, MASTER_KEY);
    assert GENERATED_KEYS[..3][2] == MASTER_KEY;
    GeneratedFills(env, minted, GENERATED_KEYS, 3, MASTER_KEY);
  }

  // ---- the .env that is written ----------------------------------------------------------------------

  /** `${key:-default}`: an empty value counts as unset. */
  function OrElse(env: Env, key: string, default: string): string {
    if Get(env, key) == "" then default else Get(env, key)
  }

  /** The heredoc's lines, expanded by a shell that has sourced the staged file. */
  function EnvPairs(env: Env): seq<Pair> {
    [Pair("NODE_ENV", "production"),
     Pair("PORT", "3000"),
     Pair("DATABASE_URL", "postgres://dsr:" + Get(env, "DB_PASS") + "@127.0.0.1:5432/dsr"),
     Pair("DATABASE_URL_APP", "postgres://dsr_app:" + Get(env, "APP_PASS") + "@127.0.0.1:5432/dsr"),
     Pair(MASTER_KEY, Get(env, MASTER_KEY)),
     Pair("COOKIE_SECURE", OrElse(env, "COOKIE_SECURE", "true")),
     Pair("EMAIL_PROVIDER", OrElse(env, "EMAIL_PROVIDER", "graph")),
     Pair("PRIVACY_MAILBOX", OrElse(env, "PRIVACY_MAILBOX", "")),
     Pair("GRAPH_TENANT_ID", OrElse(env, "GRAPH_TENANT_ID", "")),
     Pair("GRAPH_CLIENT_ID", OrElse(env, "GRAPH_CLIENT_ID", "")),
     Pair("GRAPH_CLIENT_SECRET", OrElse(env, "GRAPH_CLIENT_SECRET", ""))]
  }

  /** What the shell knows after sourcing the staged secrets. */
  function ShellSees(secrets: Env): Env {
    var sourced := Source(StagedFile(secrets, DEPLOY_SECRET_KEYS));
    if sourced.None? then map[] else sourced.value
  }

  function WrittenEnv(secrets: Env): string { EnvText(EnvPairs(ShellSees(secrets))) }

  lemma NamesAreNames()
    ensures IsName("NODE_ENV") && IsName("PORT") && IsName("DATABASE_URL") && IsName("DATABASE_URL_APP")
    ensures IsName(MASTER_KEY) && IsName("COOKIE_SECURE")
  {
  }

  lemma MailNamesAreNames()
    ensures IsName("EMAIL_PROVIDER") && IsName("PRIVACY_MAILBOX")
    ensures IsName("GRAPH_TENANT_ID") && IsName("GRAPH_CLIENT_ID") && IsName("GRAPH_CLIENT_SECRET")
  {
  }

  lemma NoBreakInside(a: string, b: string, c: string)
    requires '\n' !in a && '\n' !in b && '\n' !in c
    ensures '\n' !in a + b + c
  {
  }

  lemma PairsAreOneLine(env: Env)
    requires NoBreaks(env)
    ensures forall j :: 0 <= j < |EnvPairs(env)| ==> OneLine(EnvPairs(env)[j])
  {
    NamesAreNames();
    MailNamesAreNames();
    NoBreakInside("postgres://dsr:", Get(env, "DB_PASS"), "@127.0.0.1:5432/dsr");
    NoBreakInside("postgres://dsr_app:", Get(env, "APP_PASS"), "@127.0.0.1:5432/dsr");
  }

  lemma StagedNamesAreNames()
    ensures forall k :: k in DEPLOY_SECRET_KEYS ==> '=' !in k
  {
  }

  /** The staged values are what the shell sees. */
  lemma ShellSeesTheSecrets(secrets: Env, key: string)
    requires key in DEPLOY_SECRET_KEYS
    ensures Get(ShellSees(secrets), key) == Get(secrets, key)
  {
    StagedNamesAreNames();
    StagedFileSources(secrets, DEPLOY_SECRET_KEYS);
  }

  lemma ShellSeesNoBreaks(secrets: Env)
    requires NoBreaks(secrets)
    ensures NoBreaks(ShellSees(secrets))
  {
    StagedNamesAreNames();
    StagedFileSources(secrets, DEPLOY_SECRET_KEYS);
  }

  lemma MasterKeyIsFifth(env: Env)
    ensures var pairs := EnvPairs(env);
            && |pairs| > 4 && pairs[4] == Pair(MASTER_KEY, Get(env, MASTER_KEY))
            && forall j :: 0 <= j < |pairs| && j != 4 ==> pairs[j].key != MASTER_KEY
  {
    var pairs := EnvPairs(env);
    assert forall j :: 0 <= j < |pairs| && j != 4 ==> |pairs[j].key| != |MASTER_KEY|;
  }

  /** The key line of the written .env reads back as the key that was assembled. */
  lemma WrittenKeyReadsBack(secrets: Env)
    requires NoBreaks(secrets)
    ensures Get(ParseEnv(WrittenEnv(secrets)), MASTER_KEY) == Unquoted(Trim(Get(secrets, MASTER_KEY)))
  {
    ShellSeesNoBreaks(secrets);
    PairsAreOneLine(ShellSees(secrets));
    MasterKeyIsFifth(ShellSees(secrets));
    EnvReadsBack(EnvPairs(ShellSees(secrets)), 4);
    assert DEPLOY_SECRET_KEYS[2] == MASTER_KEY;
    ShellSeesTheSecrets(secrets, MASTER_KEY);
  }

  // ---- one deployment ----------------------------------------------------------------------------------------

  /** The service .env, if there is one, and the copy the last write made of its predecessor. */
  datatype Box = Box(env: Option<string>, backup: Option<string>)

  /** Where a run ends: before the .env step, inside its write after some characters, or past it. */
  datatype Fate = StoppedBefore | CutAt(written: nat) | Written

  /** What a run meets: the operator's file, new random values, the checks on other keys, its fate. */
  datatype Deploy = Deploy(operatorFile: Option<string>, minted: Env, otherChecksPass: bool, fate: Fate)

  function Installed(box: Box): Env { if box.env.None? then map[] else ParseEnv(box.env.value) }

  predicate GraphKeysMissing(operator: Env) {
    exists i :: 0 <= i < |GRAPH_KEYS| && Trim(Get(operator, GRAPH_KEYS[i])) == ""
  }

  /** Mail is switched off until the four credentials are there, and on again once they are. */
  function OperatorEnv(file: Option<string>): Env {
    var operator := if file.None? then map[] else ParseEnv(file.value);
    if GraphKeysMissing(operator) then operator["EMAIL_PROVIDER" := "console"]
    else if Trim(Get(operator, "EMAIL_PROVIDER")) == "" then operator["EMAIL_PROVIDER" := "graph"]
    else operator
  }

  function Secrets(box: Box, d: Deploy): Env { Assembled(Installed(box), OperatorEnv(d.operatorFile), d.minted) }

  type Fingerprint = string -> string

  function FingerprintOrBlank(fp: Fingerprint, raw: string): string { if Trim(raw) == "" then "" else fp(Trim(raw)) }

  /** The key about to be written is not the one already there. */
  predicate FingerprintRefuses(local: string, remote: string) { Trim(remote) != "" && Trim(remote) != Trim(local) }

  predicate Refuses(box: Box, d: Deploy, fp: Fingerprint) {
    || FingerprintRefuses(FingerprintOrBlank(fp, Get(Secrets(box, d), MASTER_KEY)),
                          FingerprintOrBlank(fp, Get(Installed(box), MASTER_KEY)))
    || ValidateMasterKey(Get(Secrets(box, d), MASTER_KEY)).Some?
    || !d.otherChecksPass
  }

  /** What of the new file is on the disk: the write truncates the old one first. */
  function Torn(text: string, fate: Fate): string {
    if fate.CutAt? && fate.written <= |text| then text[..fate.written] else text
  }

  function RunOnce(box: Box, d: Deploy, fp: Fingerprint): Box {
    if Refuses(box, d, fp) || d.fate.StoppedBefore? then box
    else
      var backup := if box.env.Some? then box.env else box.backup;
      Box(Some(Torn(WrittenEnv(Secrets(box, d)), d.fate)), backup)
  }

  /** The box, and a run against it. */
  class Host {
    var env: Option<string>
    var backup: Option<string>

    constructor ()
      ensures Contents() == Box(None, None)
    {
      env, backup := None, None;
    }

    function Contents(): Box reads this { Box(env, backup) }

    method RunDeployment(d: Deploy, fp: Fingerprint) returns (written: bool)
      modifies this
      ensures Contents() == RunOnce(old(Contents()), d, fp)
      ensures written <==> !Refuses(old(Contents()), d, fp) && d.fate.Written?
    {
      var installed: Env := map[];
      if env.Some? { installed := ParseEnvText(env.value); }
      var operator := OperatorEnv(d.operatorFile);
      var secrets, generated := AssembleEnv(installed, operator, d.minted);
      if FingerprintRefuses(FingerprintOrBlank(fp, Get(secrets, MASTER_KEY)),
                            FingerprintOrBlank(fp, Get(installed, MASTER_KEY)))
         || ValidateMasterKey(Get(secrets, MASTER_KEY)).Some? || !d.otherChecksPass || d.fate.StoppedBefore? {
        return false;
      }
      if env.Some? { backup := env; }
      env := Some(Torn(WrittenEnv(secrets), d.fate));
      return d.fate.Written?;
    }
  }

  function RunAll(box: Box, ds: seq<Deploy>, fp: Fingerprint): Box {
    if ds == [] then box else RunOnce(RunAll(box, ds[..|ds| - 1], fp), ds[|ds| - 1], fp)
  }

  function KeyOn(box: Box): string { Trim(Get(Installed(box), MASTER_KEY)) }

  // ---- everything else in the .env ----------------------------------------------------------------------

  /** Enough of the keys to tell them apart: their lengths, and a letter or two of those equally long. */
  ghost predicate KeyShape(pairs: seq<Pair>) {
    && |pairs| == 11
    && |pairs[0].key| == 8 && |pairs[1].key| == 4 && |pairs[2].key| == 12 && |pairs[3].key| == 16
    && |pairs[4].key| == 17 && |pairs[5].key| == 13 && |pairs[6].key| == 14
    && |pairs[7].key| == 15 && |pairs[8].key| == 15 && |pairs[9].key| == 15 && |pairs[10].key| == 19
    && pairs[7].key[0] == 'P' && pairs[8].key[0] == 'G' && pairs[9].key[0] == 'G'
    && pairs[8].key[6] == 'T' && pairs[9].key[6] == 'C'
  }

  lemma KeysHaveShape(env: Env)
    ensures KeyShape(EnvPairs(env))
  {
  }

  lemma ShapeIsDistinct(pairs: seq<Pair>, i: nat)
    requires KeyShape(pairs) && i < 11
    ensures forall j :: 0 <= j < 11 && j != i ==> pairs[j].key != pairs[i].key
  {
    forall j | 0 <= j < 11 && j != i ensures pairs[j].key != pairs[i].key {
      if |pairs[j].key| == |pairs[i].key| {
        assert 7 <= i <= 9 && 7 <= j <= 9;
        assert pairs[j].key[0] != pairs[i].key[0] || pairs[j].key[6] != pairs[i].key[6];
      }
    }
  }

  /** Every line of the written .env reads back, trimmed and rid of quotes. */
  lemma WrittenLineReadsBack(secrets: Env, i: nat)
    requires NoBreaks(secrets) && i < 11
    ensures var p := EnvPairs(ShellSees(secrets))[i];
            Get(ParseEnv(WrittenEnv(secrets)), p.key) == Unquoted(Trim(p.value))
  {
    ShellSeesNoBreaks(secrets);
    PairsAreOneLine(ShellSees(secrets));
    KeysHaveShape(ShellSees(secrets));
    ShapeIsDistinct(EnvPairs(ShellSees(secrets)), i);
    EnvReadsBack(EnvPairs(ShellSees(secrets)), i);
  }

  /** What a key the operator may leave out falls back to. */
  function FallbackOf(key: string): string {
    if key == "COOKIE_SECURE" then "true" else if key == "EMAIL_PROVIDER" then "graph" else ""
  }

  /** A staged value, or its fallback, as the service reads it. */
  function ServiceReads(secrets: Env, key: string): string {
    Unquoted(Trim(if Get(secrets, key) == "" then FallbackOf(key) else Get(secrets, key)))
  }

  /** The operator's settings and mail credentials reach the service under their own names. */
  lemma OperatorValuesReadBack(secrets: Env)
    requires NoBreaks(secrets)
    ensures var env := ParseEnv(WrittenEnv(secrets));
            && Get(env, "COOKIE_SECURE") == ServiceReads(secrets, "COOKIE_SECURE")
            && Get(env, "EMAIL_PROVIDER") == ServiceReads(secrets, "EMAIL_PROVIDER")
  {
    SettingReadsBack(secrets, "COOKIE_SECURE", 5);
    SettingReadsBack(secrets, "EMAIL_PROVIDER", 6);
  }

  lemma CredentialsReadBack(secrets: Env)
    requires NoBreaks(secrets)
    ensures var env := ParseEnv(WrittenEnv(secrets));
            && Get(env, "PRIVACY_MAILBOX") == ServiceReads(secrets, "PRIVACY_MAILBOX")
            && Get(env, "GRAPH_TENANT_ID") == ServiceReads(secrets, "GRAPH_TENANT_ID")
            && Get(env, "GRAPH_CLIENT_ID") == ServiceReads(secrets, "GRAPH_CLIENT_ID")
            && Get(env, "GRAPH_CLIENT_SECRET") == ServiceReads(secrets, "GRAPH_CLIENT_SECRET")
  {
    SettingReadsBack(secrets, "PRIVACY_MAILBOX", 7);
    SettingReadsBack(secrets, "GRAPH_TENANT_ID", 8);
    SettingReadsBack(secrets, "GRAPH_CLIENT_ID", 9);
    SettingReadsBack(secrets, "GRAPH_CLIENT_SECRET", 10);
  }

  lemma SettingReadsBack(secrets: Env, key: string, i: nat)
    requires NoBreaks(secrets) && 5 <= i < 11 && key in DEPLOY_SECRET_KEYS
    requires EnvPairs(ShellSees(secrets))[i] == Pair(key, OrElse(ShellSees(secrets), key, FallbackOf(key)))
    ensures Get(ParseEnv(WrittenEnv(secrets)), key) == ServiceReads(secrets, key)
  {
    WrittenLineReadsBack(secrets, i);
    ShellSeesTheSecrets(secrets, key);
  }

  lemma UrlReadsAsItself(start: string, middle: string, end: string)
    requires start != "" && end != "" && start[0] == 'p' && end[|end| - 1] == 'r'
    ensures Unquoted(Trim(start + middle + end)) == start + middle + end
  {
    var url := start + middle + end;
    assert url[0] == 'p' && url[|url| - 1] == 'r';
  }

  lemma UrlReadsBack(secrets: Env, i: nat, key: string, start: string, pass: string, end: string)
    requires NoBreaks(secrets) && i < 11 && pass in DEPLOY_SECRET_KEYS
    requires start != "" && end != "" && start[0] == 'p' && end[|end| - 1] == 'r'
    requires EnvPairs(ShellSees(secrets))[i] == Pair(key, start + Get(ShellSees(secrets), pass) + end)
    ensures Get(ParseEnv(WrittenEnv(secrets)), key) == start + Get(secrets, pass) + end
  {
    WrittenLineReadsBack(secrets, i);
    ShellSeesTheSecrets(secrets, pass);
    UrlReadsAsItself(start, Get(secrets, pass), end);
  }

  /** Each role's password is in its own role's URL. */
  lemma OwnerPasswordReadsBack(secrets: Env)
    requires NoBreaks(secrets)
    ensures Get(ParseEnv(WrittenEnv(secrets)), "DATABASE_URL")
            == "postgres://dsr:" + Get(secrets, "DB_PASS") + "@127.0.0.1:5432/dsr"
  {
    assert DEPLOY_SECRET_KEYS[0] == "DB_PASS";
    UrlReadsBack(secrets, 2, "DATABASE_URL", "postgres://dsr:", "DB_PASS", "@127.0.0.1:5432/dsr");
  }

  lemma AppPasswordReadsBack(secrets: Env)
    requires NoBreaks(secrets)
    ensures Get(ParseEnv(WrittenEnv(secrets)), "DATABASE_URL_APP")
            == "postgres://dsr_app:" + Get(secrets, "APP_PASS") + "@127.0.0.1:5432/dsr"
  {
    assert DEPLOY_SECRET_KEYS[1] == "APP_PASS";
    UrlReadsBack(secrets, 3, "DATABASE_URL_APP", "postgres://dsr_app:", "APP_PASS", "@127.0.0.1:5432/dsr");
  }

  /** The operator's file wins where it says something; elsewhere what is installed stays. */
  lemma OperatorWins(installed: Env, operator: Env, minted: Env, key: string)
    requires key in OPERATOR_KEYS
    ensures Get(Assembled(installed, operator, minted), key)
            == if Trim(Get(operator, key)) != "" then Trim(Get(operator, key)) else Get(installed, key)
  {
    var env := WithOperator(installed, operator, OPERATOR_KEYS, |OPERATOR_KEYS|);
    assert OPERATOR_KEYS[..|OPERATOR_KEYS|] == OPERATOR_KEYS;
    OperatorSets(installed, operator, OPERATOR_KEYS, |OPERATOR_KEYS|, key);
    OperatorKeyIsNotGenerated(key);
    assert GENERATED_KEYS[..3] == GENERATED_KEYS;
    StillBlank(env, minted, GENERATED_KEYS, 3, key);
  }

  lemma {:induction false} OperatorSets(env: Env, operator: Env, keys: seq<string>, n: nat, key: string)
    requires n <= |keys|
    ensures key in keys[..n] ==>
              Get(WithOperator(env, operator, keys, n), key)
              == if Trim(Get(operator, key)) != "" then Trim(Get(operator, key)) else Get(env, key)
    ensures key !in keys[..n] ==> Get(WithOperator(env, operator, keys, n), key) == Get(env, key)
  {
    if n == 0 {
    } else {
      OperatorSets(env, operator, keys, n - 1, key);
      assert keys[..n] == keys[..n - 1] + [keys[n - 1]];
    }
  }

  lemma OperatorKeyIsNotGenerated(key: string)
    requires key in OPERATOR_KEYS
    ensures key !in GENERATED_KEYS
  {
    assert forall i :: 0 <= i < |OPERATOR_KEYS| ==> |OPERATOR_KEYS[i]| > 12 && |OPERATOR_KEYS[i]| != 17;
    assert |GENERATED_KEYS[0]| == 7 && |GENERATED_KEYS[1]| == 8 && |GENERATED_KEYS[2]| == 17;
  }

  /** Mail goes to the console while a credential is missing, through Graph once none is, or where the operator says. */
  lemma MailIsSwitched(file: Option<string>)
    ensures var given := if file.None? then map[] else ParseEnv(file.value);
            var whole := forall i :: 0 <= i < |GRAPH_KEYS| ==> Trim(Get(given, GRAPH_KEYS[i])) != "";
            && Get(OperatorEnv(file), "EMAIL_PROVIDER")
               == (if !whole then "console"
                   else if Trim(Get(given, "EMAIL_PROVIDER")) == "" then "graph" else Get(given, "EMAIL_PROVIDER"))
            && forall key :: key != "EMAIL_PROVIDER" ==> Get(OperatorEnv(file), key) == Get(given, key)
  {
  }

  // ---- the key is stable ------------------------------------------------------------------------------------------

  /** The fingerprint guard never has to act: the assembled key is the installed one. */
  lemma GuardNeverFires(box: Box, d: Deploy, fp: Fingerprint)
    ensures !FingerprintRefuses(FingerprintOrBlank(fp, Get(Secrets(box, d), MASTER_KEY)),
                                FingerprintOrBlank(fp, Get(Installed(box), MASTER_KEY)))
  {
    if KeyOn(box) != "" {
      InstalledKeyIsKept(Installed(box), OperatorEnv(d.operatorFile), d.minted);
    } else {
      assert Trim("") == "";
    }
  }

  /** The key a run goes by: the one on the box, or the new one if there is none. */
  function KeyFor(box: Box, d: Deploy): string {
    if KeyOn(box) != "" then Get(Installed(box), MASTER_KEY) else Get(d.minted, MASTER_KEY)
  }

  /** It is refused exactly if that key is not a valid one, or another check fails. */
  lemma RefusesExactly(box: Box, d: Deploy, fp: Fingerprint)
    ensures Refuses(box, d, fp) <==> ValidateMasterKey(KeyFor(box, d)).Some? || !d.otherChecksPass
  {
    GuardNeverFires(box, d, fp);
    if KeyOn(box) != "" {
      InstalledKeyIsKept(Installed(box), OperatorEnv(d.operatorFile), d.minted);
    } else {
      MissingKeyIsGenerated(Installed(box), OperatorEnv(d.operatorFile), d.minted);
    }
  }

  lemma TornIsAStart(text: string, fate: Fate)
    ensures Torn(text, fate) <= text && (!fate.CutAt? ==> Torn(text, fate) == text)
  {
  }

  /** The box after a run that was not refused: what was there is backed up, and the new file written, or its start. */
  ghost predicate WroteOver(box: Box, fate: Fate, text: string, after: Box) {
    && after.backup == (if box.env.Some? then box.env else box.backup)
    && after.env.Some? && after.env.value <= text && (fate.Written? ==> after.env.value == text)
  }

  /** A run that is refused, or stops before the .env, leaves the box; any other writes over it. */
  lemma RunExactly(box: Box, d: Deploy, fp: Fingerprint)
    ensures var after := RunOnce(box, d, fp);
            if Refuses(box, d, fp) || d.fate.StoppedBefore? then after == box
            else WroteOver(box, d.fate, WrittenEnv(Secrets(box, d)), after)
  {
    TornIsAStart(WrittenEnv(Secrets(box, d)), d.fate);
  }

  lemma {:induction false} OperatorHasNoBreaks(env: Env, operator: Env, keys: seq<string>, n: nat)
    requires n <= |keys| && NoBreaks(env) && NoBreaks(operator)
    ensures NoBreaks(WithOperator(env, operator, keys, n))
  {
    if n == 0 {
    } else {
      OperatorHasNoBreaks(env, operator, keys, n - 1);
      TrimAbsent(Get(operator, keys[n - 1]), '\n');
    }
  }

  lemma {:induction false} GeneratedHasNoBreaks(env: Env, minted: Env, keys: seq<string>, n: nat)
    requires n <= |keys| && NoBreaks(env) && NoBreaks(minted)
    ensures NoBreaks(WithGenerated(env, minted, keys, n))
  {
    if n == 0 {
    } else {
      GeneratedHasNoBreaks(env, minted, keys, n - 1);
    }
  }

  lemma SecretsHaveNoBreaks(box: Box, d: Deploy)
    requires NoBreaks(d.minted)
    ensures NoBreaks(Secrets(box, d))
  {
    if box.env.Some? { ParsedEnvHasNoBreaks(box.env.value); }
    if d.operatorFile.Some? { ParsedEnvHasNoBreaks(d.operatorFile.value); }
    var operator := OperatorEnv(d.operatorFile);
    assert '\n' !in "console" && '\n' !in "graph";
    assert NoBreaks(operator);
    OperatorHasNoBreaks(Installed(box), operator, OPERATOR_KEYS, |OPERATOR_KEYS|);
    GeneratedHasNoBreaks(WithOperator(Installed(box), operator, OPERATOR_KEYS, |OPERATOR_KEYS|), d.minted,
                         GENERATED_KEYS, |GENERATED_KEYS|);
  }

  /** What a completed write leaves on the box is the key it assembled. */
  lemma WrittenKeyIsTheSecret(box: Box, d: Deploy, fp: Fingerprint)
    requires NoBreaks(d.minted) && !Refuses(box, d, fp) && d.fate.Written?
    ensures KeyOn(RunOnce(box, d, fp)) == Trim(Get(Secrets(box, d), MASTER_KEY))
  {
    var secrets := Secrets(box, d);
    var key := Trim(Get(secrets, MASTER_KEY));
    SecretsHaveNoBreaks(box, d);
    WrittenKeyReadsBack(secrets);
    ValidKeyIsPlain(Get(secrets, MASTER_KEY));
    PlainReadsAsItself(key);
  }

  /** One run, wherever it stops short of tearing the file itself, keeps an installed key. */
  lemma RunKeepsKey(box: Box, d: Deploy, fp: Fingerprint)
    requires KeyOn(box) != "" && NoBreaks(d.minted) && !d.fate.CutAt?
    ensures KeyOn(RunOnce(box, d, fp)) == KeyOn(box)
  {
    if !Refuses(box, d, fp) && d.fate.Written? {
      InstalledKeyIsKept(Installed(box), OperatorEnv(d.operatorFile), d.minted);
      WrittenKeyIsTheSecret(box, d, fp);
    }
  }

  /** Over any number of runs, each with any operator file and stopping at any step boundary. */
  lemma {:induction false} KeyIsStable(box: Box, ds: seq<Deploy>, fp: Fingerprint)
    requires KeyOn(box) != ""
    requires forall i :: 0 <= i < |ds| ==> NoBreaks(ds[i].minted) && !ds[i].fate.CutAt?
    ensures KeyOn(RunAll(box, ds, fp)) == KeyOn(box)
  {
    if ds == [] {
    } else {
      KeyIsStable(box, ds[..|ds| - 1], fp);
      RunKeepsKey(RunAll(box, ds[..|ds| - 1], fp), ds[|ds| - 1], fp);
    }
  }

  /** A run that carries a valid new key and completes. */
  ghost predicate Completes(d: Deploy) {
    && NoBreaks(d.minted) && ValidateMasterKey(Get(d.minted, MASTER_KEY)).None?
    && d.otherChecksPass && d.fate.Written?
  }

  /** On a box without a key, a completed run installs the one it minted. */
  lemma NewKeyIsInstalled(box: Box, d: Deploy, fp: Fingerprint)
    requires KeyOn(box) == "" && Completes(d)
    ensures KeyOn(RunOnce(box, d, fp)) == Trim(Get(d.minted, MASTER_KEY))
  {
    MissingKeyIsGenerated(Installed(box), OperatorEnv(d.operatorFile), d.minted);
    GuardNeverFires(box, d, fp);
    WrittenKeyIsTheSecret(box, d, fp);
  }

  /** The first completed run on a bare box fixes the key for good. */
  lemma FirstKeyStays(box: Box, first: Deploy, ds: seq<Deploy>, fp: Fingerprint)
    requires KeyOn(box) == "" && Completes(first)
    requires forall i :: 0 <= i < |ds| ==> NoBreaks(ds[i].minted) && !ds[i].fate.CutAt?
    ensures KeyOn(RunAll(RunOnce(box, first, fp), ds, fp)) == Trim(Get(first.minted, MASTER_KEY))
  {
    NewKeyIsInstalled(box, first, fp);
    KeyIsStable(RunOnce(box, first, fp), ds, fp);
  }

  /** Valid keys exist: 32 zero bytes, encoded. */
  lemma ZeroKeyIsValid(key: string)
    requires |key| == 44 && key[43] == '=' && forall i :: 0 <= i < 43 ==> key[i] == 'A'
    ensures ValidateMasterKey(key).None? && Trim(key) == key && IsPlain(key)
  {
    assert Pads(key) == 1;
  }

  /** What the written key is, untrimmed. */
  lemma WrittenKeyIsPlain(box: Box, d: Deploy, fp: Fingerprint, key: string)
    requires KeyOn(box) == "" && Completes(d) && Get(d.minted, MASTER_KEY) == key && Trim(key) == key
    ensures Get(Installed(RunOnce(box, d, fp)), MASTER_KEY) == key
  {
    MissingKeyIsGenerated(Installed(box), OperatorEnv(d.operatorFile), d.minted);
    GuardNeverFires(box, d, fp);
    SecretsHaveNoBreaks(box, d);
    WrittenKeyReadsBack(Secrets(box, d));
    ValidKeyIsPlain(key);
    PlainReadsAsItself(key);
  }

  /** The laws above speak of runs that exist: one that completes, a box with its key, a later run not refused. */
  lemma KeyedBoxExists(fp: Fingerprint) returns (d: Deploy, box: Box)
    ensures Completes(d) && box == RunOnce(Box(None, None), d, fp)
    ensures KeyOn(box) != "" && IsPlain(Get(Installed(box), MASTER_KEY))
    ensures forall fate :: !Refuses(box, d.(fate := fate), fp)
  {
    var key := seq(43, _ => 'A') + "=";
    ZeroKeyIsValid(key);
    d := Deploy(None, map[MASTER_KEY := key], true, Written);
    box := RunOnce(Box(None, None), d, fp);
    assert Trim("") == "" && '\n' !in key;
    WrittenKeyIsPlain(Box(None, None), d, fp, key);
    forall fate ensures !Refuses(box, d.(fate := fate), fp) {
      InstalledKeyIsKept(Installed(box), OperatorEnv(d.operatorFile), d.minted);
      GuardNeverFires(box, d.(fate := fate), fp);
    }
  }

  // ---- where it is not ------------------------------------------------------------------------------------------------

  /** Where the key's line ends in the file a run writes. */
  function KeyEnd(secrets: Env): nat { LineEnd(EnvPairs(ShellSees(secrets))) }

  function LineEnd(pairs: seq<Pair>): nat
    requires |pairs| > 4
  {
    LineStart(pairs, 4) + |LineOf(pairs[4])|
  }

  lemma PlainPrefix(v: string, c: nat)
    requires IsPlain(v) && c <= |v|
    ensures Unquoted(Trim(v[..c])) == v[..c]
  {
    if c == 0 {
      assert v[..0] == "" && Trim("") == "";
    } else {
      assert IsPlain(v[..c]);
      PlainReadsAsItself(v[..c]);
    }
  }

  lemma CutKeyIsWhole(pairs: seq<Pair>, n: nat)
    requires |pairs| > 4 && IsPlain(pairs[4].value)
    ensures CutValue(pairs, 4, n) == Some(pairs[4].value) <==> n >= LineEnd(pairs)
  {
    var p, start := pairs[4], LineStart(pairs, 4);
    if n > start && LengthCut(pairs, 4, n) > |p.key| {
      var c := LengthCut(pairs, 4, n) - |p.key| - 1;
      PlainPrefix(p.value, c);
      assert |p.value[..c]| == c;
      assert p.value[..|p.value|] == p.value;
    }
  }

  /**
   * A run that dies inside the write keeps the key if and only if the write
   * had got past the end of the key's line.
   */
  lemma CutWriteIsExact(box: Box, d: Deploy, fp: Fingerprint)
    requires NoBreaks(d.minted) && !Refuses(box, d, fp) && d.fate.CutAt?
    requires IsPlain(Get(Installed(box), MASTER_KEY))
    ensures Get(Installed(RunOnce(box, d, fp)), MASTER_KEY) == Get(Installed(box), MASTER_KEY)
            <==> d.fate.written >= KeyEnd(Secrets(box, d))
  {
    var secrets := Secrets(box, d);
    PlainReadsAsItself(Get(Installed(box), MASTER_KEY));
    InstalledKeyIsKept(Installed(box), OperatorEnv(d.operatorFile), d.minted);
    SecretsHaveNoBreaks(box, d);
    CutSecrets(secrets, d.fate);
  }

  lemma CutSecrets(secrets: Env, fate: Fate)
    requires NoBreaks(secrets) && IsPlain(Get(secrets, MASTER_KEY)) && fate.CutAt?
    ensures Get(ParseEnv(Torn(WrittenEnv(secrets), fate)), MASTER_KEY) == Get(secrets, MASTER_KEY)
            <==> fate.written >= KeyEnd(secrets)
  {
    var pairs := EnvPairs(ShellSees(secrets));
    ShellSeesNoBreaks(secrets);
    PairsAreOneLine(ShellSees(secrets));
    MasterKeyIsFifth(ShellSees(secrets));
    assert DEPLOY_SECRET_KEYS[2] == MASTER_KEY;
    ShellSeesTheSecrets(secrets, MASTER_KEY);
    if fate.written <= |WrittenEnv(secrets)| {
      CutEnvReads(pairs, fate.written, 4);
      CutKeyIsWhole(pairs, fate.written);
    } else {
      WrittenKeyReadsBack(secrets);
      PlainReadsAsItself(Get(secrets, MASTER_KEY));
      LineEndsInside(pairs, 4);
    }
  }

  lemma {:induction false} LineEndsInside(pairs: seq<Pair>, i: nat)
    requires i < |pairs|
    ensures LineStart(pairs, i) + |LineOf(pairs[i])| <= |EnvText(pairs)|
  {
    if i == 0 {
    } else {
      LineEndsInside(pairs[1..], i - 1);
    }
  }

  /**
   * When the write dies before anything is written, the next completed run
   * finds no key, installs its own, and backs up the empty file: the first
   * key is then neither in the .env nor in its backup.
   */
  lemma EmptiedFileLosesTheKey(box: Box, torn: Deploy, next: Deploy, fp: Fingerprint)
    requires !Refuses(box, torn, fp) && torn.fate == CutAt(0) && Completes(next)
    ensures var after := RunOnce(RunOnce(box, torn, fp), next, fp);
            KeyOn(after) == Trim(Get(next.minted, MASTER_KEY)) && after.backup == Some("")
  {
    var empty := RunOnce(box, torn, fp);
    assert empty.env == Some("") && SplitLines("") == [] && Trim("") == "";
    NewKeyIsInstalled(empty, next, fp);
    GuardNeverFires(empty, next, fp);
    MissingKeyIsGenerated(Installed(empty), OperatorEnv(next.operatorFile), next.minted);
  }
}
