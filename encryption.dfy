/** The negotiable encryption modes and the `strategies` table from mode name to strategy factory. */
module Encryption {
  import opened Bytes
  import opened Errors
  import opened Poly1305

  /** `EncryptionStrategies`: the four mode names the client can negotiate. */
  datatype Mode = AeadAes256Gcm | Xsalsa20Poly1305 | Xsalsa20Poly1305Lite | Xsalsa20Poly1305Suffix

  function ModeName(m: Mode): string {
    match m
    case AeadAes256Gcm => "aead_aes256_gcm"
    case Xsalsa20Poly1305 => "xsalsa20_poly1305"
    case Xsalsa20Poly1305Lite => "xsalsa20_poly1305_lite"
    case Xsalsa20Poly1305Suffix => "xsalsa20_poly1305_suffix"
  }

  /** The keys of `strategies`. */
  const ModeNames: set<string> := {"aead_aes256_gcm", "xsalsa20_poly1305", "xsalsa20_poly1305_lite", "xsalsa20_poly1305_suffix"}

  /** `strategies[name]`: the mode a name selects, or `undefined`. */
  function ModeFromName(name: string): (r: Option<Mode>)
    ensures r.Some? <==> name in ModeNames
    ensures r.Some? ==> ModeName(r.value) == name
  {
    if name == "aead_aes256_gcm" then Some(AeadAes256Gcm)
    else if name == "xsalsa20_poly1305" then Some(Xsalsa20Poly1305)
    else if name == "xsalsa20_poly1305_lite" then Some(Xsalsa20Poly1305Lite)
    else if name == "xsalsa20_poly1305_suffix" then Some(Xsalsa20Poly1305Suffix)
    else None
  }

  /** Every mode's name is found in the table and selects that mode again. */
  lemma ModeNameRoundTrip(m: Mode)
    ensures ModeName(m) in ModeNames
    ensures ModeFromName(ModeName(m)) == Some(m)
  {
  }

  /** The nonce policy each poly1305 factory passes; the AES factory builds a strategy outside this model. */
  function PolicyFor(m: Mode): (r: Option<NoncePolicy>)
    ensures r.None? <==> m.AeadAes256Gcm?
  {
    match m
    case AeadAes256Gcm => None
    case Xsalsa20Poly1305 => Some(Normal)
    case Xsalsa20Poly1305Lite => Some(Lite)
    case Xsalsa20Poly1305Suffix => Some(Suffix)
  }

  /** The poly1305 mode names are `"xsalsa20_poly1305"` with the policy's suffix (none for normal). */
  lemma PolicyForName(m: Mode)
    requires PolicyFor(m).Some?
    ensures var p := PolicyFor(m).value;
      ModeName(m) == "xsalsa20_poly1305" + (if p.Normal? then "" else "_" + PolicyName(p))
  {
  }

  /** The `name` of a poly1305 strategy, as written, is never one of the mode names. */
  lemma StrategyNameIsNoModeName(p: NoncePolicy)
    ensures StrategyName(p) !in ModeNames
  {
    var n := StrategyName(p);
    assert n[0] == '_';
  }

  /**
   * `strategies[mode](secret_key)` for the poly1305 modes: a fresh strategy over a fresh nonce strategy
   * of the mode's policy. The AES mode yields no strategy here.
   */
  method CreateStrategy(m: Mode, secretKey: seq<byte>, seal: Sealer, open: Opener, sodiumBuffers: bool)
    returns (s: Option<Poly1305Strategy>)
    ensures s.None? <==> m.AeadAes256Gcm?
    ensures s.Some? ==> fresh(s.value) && fresh(s.value.nonceStrategy) && s.value.Valid()
    ensures s.Some? ==> s.value.nonceStrategy.policy == PolicyFor(m).value && s.value.nonceStrategy.counter == 0
    ensures s.Some? ==> s.value.secretKey == secretKey && s.value.seal == seal && s.value.open == open
  {
    var policy := PolicyFor(m);
    if policy.None? {
      return None;
    }
    var nonceStrategy := new NonceStrategy(policy.value);
    var strategy := new Poly1305Strategy(secretKey, nonceStrategy, seal, open, sodiumBuffers);
    s := Some(strategy);
  }
}
