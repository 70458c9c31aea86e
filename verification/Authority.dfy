/** Names and the layout of DHT keys (src/authority.rs). */
module Authority {
  import opened Common

  const MAX_NAME_LEN := 64
  const RESERVED_SERVICE := "service"
  const AUTH_PREFIX := "/oahd/auth"

  predicate IsNameChar(c: char) {
    'A' <= c <= 'Z' || 'a' <= c <= 'z' || '0' <= c <= '9' || c == '_' || c == '-'
  }

  predicate IsValidNetworkName(s: string) {
    0 < |s| <= MAX_NAME_LEN && forall c :: c in s ==> IsNameChar(c)
  }

  predicate IsValidServiceName(s: string) {
    IsValidNetworkName(s) && s != RESERVED_SERVICE
  }

  function IndexKey(netHash: string): string {
    AUTH_PREFIX + "/" + netHash + "/" + RESERVED_SERVICE
  }

  function ServiceKey(netHash: string, service: string): Option<string> {
    if IsValidServiceName(service) then Some(AUTH_PREFIX + "/" + netHash + "/" + service) else None
  }

  lemma AppendCancel(prefix: string, a: string, b: string)
    requires prefix + a == prefix + b
    ensures a == b
  {
    assert a == (prefix + a)[|prefix|..];
    assert b == (prefix + b)[|prefix|..];
  }

  /** Two services of one network never share a key, and none has the key of the index. */
  lemma KeysDisjoint(netHash: string, a: string, b: string)
    ensures ServiceKey(netHash, a) != Some(IndexKey(netHash))
    ensures a != b && ServiceKey(netHash, a).Some? ==> ServiceKey(netHash, a) != ServiceKey(netHash, b)
  {
    var prefix := AUTH_PREFIX + "/" + netHash + "/";
    if ServiceKey(netHash, a) == Some(IndexKey(netHash)) {
      AppendCancel(prefix, a, RESERVED_SERVICE);
    }
    if ServiceKey(netHash, a).Some? && ServiceKey(netHash, a) == ServiceKey(netHash, b) {
      AppendCancel(prefix, a, b);
    }
  }
}
