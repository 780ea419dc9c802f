/** Requests, leases and the request policy of the broker (`internal/core/domain`). */
module Domain {
  import opened Text

  datatype RequestStatus = Pending | Approved | Denied

  datatype LeaseRequest = LeaseRequest(
    id: string,
    agentID: string,
    taskID: string,
    intent: string,
    reason: string,
    ttlMinutes: int,
    secrets: seq<string>,
    commandFingerprint: string,
    workdirFingerprint: string,
    envPath: string,
    envPathCanonical: string,
    status: RequestStatus,
    createdAt: int)

  datatype Lease = Lease(
    token: string,
    requestID: string,
    agentID: string,
    taskID: string,
    intent: string,
    secrets: seq<string>,
    commandFingerprint: string,
    workdirFingerprint: string,
    expiresAt: int)
  {
    predicate IsExpired(now: int) {
      now >= expiresAt
    }

    predicate Allows(secret: string) {
      secret in secrets
    }
  }

  datatype Policy = Policy(minTTLMinutes: int, maxTTLMinutes: int, maxSecretsPerReq: int) {
    predicate ValidateRequest(ttl: int, secrets: seq<string>) {
      && minTTLMinutes <= ttl <= maxTTLMinutes
      && 0 < |secrets| <= maxSecretsPerReq
      && forall s | s in secrets :: ValidateSecretName(s)
    }
  }

  const RESERVED_SECRET_ENV_NAMES: set<string> := {
    "PATH", "HOME", "TMPDIR", "TMP", "TEMP", "SYSTEMROOT", "COMSPEC", "PATHEXT", "USERPROFILE",
    "LD_PRELOAD", "LD_LIBRARY_PATH", "DYLD_INSERT_LIBRARIES", "DYLD_LIBRARY_PATH", "PYTHONPATH",
    "PYTHONHOME", "GIT_CONFIG", "GIT_CONFIG_GLOBAL", "GIT_CONFIG_SYSTEM", "GIT_EXEC_PATH",
    "NODE_OPTIONS", "RUBYOPT", "PERL5OPT"}

  /**
   Upper case, exact where the result is ASCII: besides a-z, only U+0131 and U+017F have an ASCII
   upper case. Every other character is kept, and is as little acceptable in a name as its upper
   case would be.
   */
  function UpperChar(c: char): char {
    if 'a' <= c <= 'z' then (c as int - 'a' as int + 'A' as int) as char
    else if c == '\U{131}' then 'I'
    else if c == '\U{17F}' then 'S'
    else c
  }

  function ToUpper(s: string): string {
    seq(|s|, i requires 0 <= i < |s| => UpperChar(s[i]))
  }

  predicate IsValidSecretEnvName(name: string) {
    && name != ""
    && !('0' <= name[0] <= '9')
    && forall c | c in name :: c == '_' || 'A' <= c <= 'Z' || '0' <= c <= '9'
  }

  predicate ValidateSecretName(secret: string) {
    var name := ToUpper(TrimSpace(secret));
    IsValidSecretEnvName(name) && name !in RESERVED_SECRET_ENV_NAMES
  }

  /** The characters that may occur in the trimmed name of a secret that can be requested. */
  predicate SecretNameChar(c: char) {
    c == '_' || 'A' <= c <= 'Z' || 'a' <= c <= 'z' || '0' <= c <= '9' || c == '\U{131}' || c == '\U{17F}'
  }

  lemma ValidSecretNameChars(secret: string)
    requires ValidateSecretName(secret)
    ensures TrimSpace(secret) != ""
    ensures forall c | c in TrimSpace(secret) :: SecretNameChar(c)
  {
    var t := TrimSpace(secret);
    forall i | 0 <= i < |t| ensures SecretNameChar(t[i]) {
      assert ToUpper(t)[i] in ToUpper(t);
    }
  }

  /** `u` is `c`, or the capital letter that `c` is written for. */
  predicate CapitalOf(c: char, u: char) {
    || (c == u && !('a' <= c <= 'z') && c != '\U{131}' && c != '\U{17F}')
    || ('a' <= c <= 'z' && u as int == c as int - 32)
    || (c == '\U{131}' && u == 'I')
    || (c == '\U{17F}' && u == 'S')
  }

  /** `text` is the capitalised `name` in any mix of case. */
  predicate Spells(text: string, name: string) {
    |text| == |name| && forall i | 0 <= i < |text| :: CapitalOf(text[i], name[i])
  }

  lemma SpellsIff(text: string, name: string)
    ensures Spells(text, name) <==> ToUpper(text) == name
  {
    if ToUpper(text) == name {
      forall i | 0 <= i < |text| ensures CapitalOf(text[i], name[i]) {
        assert ToUpper(text)[i] == UpperChar(text[i]);
      }
    }
  }

  /**
   A secret can be requested exactly when its trimmed name is of letters, digits and underscores, not blank,
   with no digit in front, and spells no reserved name in any mix of case.
   */
  lemma ValidSecretNameIff(secret: string)
    ensures
      ValidateSecretName(secret)
      <==> var t := TrimSpace(secret);
           && t != "" && !('0' <= t[0] <= '9')
           && (forall i | 0 <= i < |t| :: SecretNameChar(t[i]))
           && forall n | n in RESERVED_SECRET_ENV_NAMES :: !Spells(t, n)
  {
    var t := TrimSpace(secret);
    forall n ensures Spells(t, n) <==> ToUpper(t) == n {
      SpellsIff(t, n);
    }
    NameCharsIff(t);
  }

  lemma NameCharsIff(t: string)
    ensures
      IsValidSecretEnvName(ToUpper(t))
      <==> t != "" && !('0' <= t[0] <= '9') && forall i | 0 <= i < |t| :: SecretNameChar(t[i])
  {
    var name := ToUpper(t);
    forall i | 0 <= i < |t| ensures SecretNameChar(t[i]) <==> name[i] == '_' || 'A' <= name[i] <= 'Z' || '0' <= name[i] <= '9' {
      assert name[i] == UpperChar(t[i]);
    }
    if IsValidSecretEnvName(name) {
      forall i | 0 <= i < |t| ensures SecretNameChar(t[i]) {
        assert name[i] in name;
      }
    }
  }
}
