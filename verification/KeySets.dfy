/**
  The JWT key sets: two parsers of the same environment variables, one feeding the
  signer (and logout), the other feeding the authentication middleware.

  A secret is the string of its bytes; Go's nil slice and an empty slice are both "".
 */
module KeySets {
  import opened Wrappers
  import opened GoStrings

  /** JWT_KEYS, JWT_CURRENT_KID and JWT_SECRET; an unset variable reads as "". */
  datatype Env = Env(keys: string, currentKid: string, secret: string)

  type Secrets = map<string, string>

  datatype Keys = Keys(current: string, secrets: Secrets)

  datatype EnvProvider = EnvProvider(current: string, secrets: Secrets)

  // ----- The verifier's parser -----

  function AddVerifierEntry(secrets: Secrets, p: string): Secrets {
    if p == "" || ':' !in p then secrets
    else
      var i := Index(p, ':');
      secrets[p[..i] := p[i + 1..]]
  }

  function VerifierParts(parts: seq<string>): Secrets {
    if parts == [] then map[]
    else AddVerifierEntry(VerifierParts(parts[..|parts| - 1]), TrimSpace(parts[|parts| - 1]))
  }

  /** The entries that JWT_KEYS lists. */
  function Listed(raw: string): Secrets {
    VerifierParts(Split(raw, ','))
  }

  function VerifierSecrets(env: Env): Secrets {
    if Listed(env.keys) == map[] then map["default" := env.secret] else Listed(env.keys)
  }

  /** `jwtauth.Load`. Go's map range may start at any key. */
  method Load(env: Env) returns (keys: Keys)
    ensures keys.secrets == VerifierSecrets(env) && keys.secrets != map[]
    ensures keys.secrets == if Listed(env.keys) != map[] then Listed(env.keys) else map["default" := env.secret]
    ensures Listed(env.keys) == map[] && env.currentKid == "" ==> keys.current == "default"
    ensures env.currentKid != "" ==> keys.current == env.currentKid
    ensures env.currentKid == "" ==> keys.current in keys.secrets
  {
    var cur := env.currentKid;
    var secrets: Secrets := map[];
    if env.keys != "" {
      var parts := Split(env.keys, ',');
      for i := 0 to |parts|
        invariant secrets == VerifierParts(parts[..i])
      {
        OneMorePart(parts, i);
        var p := TrimSpace(parts[i]);
        if p == "" || ':' !in p {
          continue;
        }
        var at := Index(p, ':');
        secrets := secrets[p[..at] := p[at + 1..]];
      }
      assert parts[..|parts|] == parts;
    } else {
      NothingListed();
    }
    assert secrets == Listed(env.keys);
    if |secrets| == 0 {
      secrets := secrets["default" := env.secret];
      assert secrets == map["default" := env.secret];
      if cur == "" {
        cur := "default";
      }
    }
    if cur == "" {
      var k :| k in secrets;
      cur := k;
    }
    keys := Keys(cur, secrets);
  }

  // ----- The signer's parser -----

  function AddSignerEntry(secrets: Secrets, p: string): Secrets {
    var kv := SplitN2(p, ':');
    if |kv| == 2 then secrets[kv[0] := kv[1]] else secrets
  }

  function SignerParts(parts: seq<string>): Secrets {
    if parts == [] then map[]
    else AddSignerEntry(SignerParts(parts[..|parts| - 1]), TrimSpace(parts[|parts| - 1]))
  }

  function SignerProvider(env: Env): EnvProvider {
    var listed := SignerParts(Split(TrimSpace(env.keys), ','));
    var current := TrimSpace(env.currentKid);
    if listed == map[] && env.secret != "" then
      var kid := if current == "" then "key1" else current;
      EnvProvider(kid, map[kid := env.secret])
    else
      EnvProvider(current, listed)
  }

  /** `jwtauth.loadFromEnv`. */
  method LoadFromEnv(env: Env) returns (provider: EnvProvider)
    ensures provider == SignerProvider(env)
    ensures Listed(env.keys) != map[] ==> provider == EnvProvider(TrimSpace(env.currentKid), Listed(env.keys))
    ensures Listed(env.keys) == map[] && env.secret == "" ==> provider == EnvProvider(TrimSpace(env.currentKid), map[])
    ensures Listed(env.keys) == map[] && env.secret != "" ==>
              var kid := if TrimSpace(env.currentKid) == "" then "key1" else TrimSpace(env.currentKid);
              provider == EnvProvider(kid, map[kid := env.secret])
  {
    var keys, current := TrimSpace(env.keys), TrimSpace(env.currentKid);
    var secrets: Secrets := map[];
    if keys != "" {
      var parts := Split(keys, ',');
      for i := 0 to |parts|
        invariant secrets == SignerParts(parts[..i])
      {
        OneMorePart(parts, i);
        var kv := SplitN2(TrimSpace(parts[i]), ':');
        if |kv| == 2 {
          secrets := secrets[kv[0] := kv[1]];
        }
      }
      assert parts[..|parts|] == parts;
    } else {
      NothingListed();
    }
    assert secrets == SignerParts(Split(keys, ','));
    if |secrets| == 0 && env.secret != "" {
      assert secrets == map[];
      if current == "" {
        current := "key1";
      }
      secrets := secrets[current := env.secret];
      assert secrets == map[current := env.secret];
    }
    provider := EnvProvider(current, secrets);
    ParsersAgree(env.keys);
  }

  lemma OneMorePart(parts: seq<string>, i: nat)
    requires i < |parts|
    ensures VerifierParts(parts[..i + 1]) == AddVerifierEntry(VerifierParts(parts[..i]), TrimSpace(parts[i]))
    ensures SignerParts(parts[..i + 1]) == AddSignerEntry(SignerParts(parts[..i]), TrimSpace(parts[i]))
  {
    assert parts[..i + 1][..i] == parts[..i];
  }

  lemma NothingListed()
    ensures Listed("") == map[] && SignerParts(Split("", ',')) == map[]
  {
    assert Split("", ',') == [""];
    assert [""][..0] == [];
  }

  // ----- The two parsers agree -----

  lemma EntryAgrees(secrets: Secrets, p: string)
    ensures AddSignerEntry(secrets, p) == AddVerifierEntry(secrets, p)
  {
    if ':' in p {
      var i := Index(p, ':');
      var kv := SplitN2(p, ':');
      assert kv == [p[..i], p[i + 1..]];
    }
  }

  lemma {:induction false} PartsAgree(a: seq<string>, b: seq<string>)
    requires |a| == |b| && forall i | 0 <= i < |a| :: TrimSpace(a[i]) == TrimSpace(b[i])
    ensures SignerParts(a) == VerifierParts(b)
  {
    if a != [] {
      var n := |a| - 1;
      PartsAgree(a[..n], b[..n]);
      EntryAgrees(SignerParts(a[..n]), TrimSpace(a[n]));
    }
  }

  /** The signer trims the whole list before splitting it; both parsers still read the same entries. */
  lemma ParsersAgree(raw: string)
    ensures SignerParts(Split(TrimSpace(raw), ',')) == Listed(raw)
  {
    var a, b := Split(TrimSpace(raw), ','), Split(raw, ',');
    SplitTrimSpace(raw, ',');
    forall i | 0 <= i < |a| ensures TrimSpace(a[i]) == TrimSpace(b[i]) {
      assert TrimAll(a)[i] == TrimAll(b)[i];
    }
    PartsAgree(a, b);
  }

  // ----- What the list means -----

  /** The piece `p`, trimmed, is an entry: an id without a colon, a colon, and any secret. */
  predicate IsEntry(p: string, kid: string, secret: string) {
    ':' !in kid && TrimSpace(p) == kid + ":" + secret
  }

  /** Piece `i` gives `kid` its secret: it is an entry for it, and no later piece is. */
  ghost predicate Decides(parts: seq<string>, i: int, kid: string, secret: string) {
    && 0 <= i < |parts| && IsEntry(parts[i], kid, secret)
    && (forall j, other | i < j < |parts| :: !IsEntry(parts[j], kid, other))
  }

  /** A piece with a colon is an entry for what stands before its first colon; one without is none. */
  lemma EntryOf(p: string, kid: string, secret: string)
    ensures IsEntry(p, kid, secret) <==>
              var t := TrimSpace(p); ':' in t && kid == t[..Index(t, ':')] && secret == t[Index(t, ':') + 1..]
  {
    var t := TrimSpace(p);
    if IsEntry(p, kid, secret) {
      assert t[|kid|] == ':' && t[..|kid|] == kid && t[|kid| + 1..] == secret;
      var i := Index(t, ':');
      assert forall x | 0 <= x < |kid| :: t[x] == kid[x];
      assert i == |kid|;
    } else if ':' in t {
      var i := Index(t, ':');
      assert t == t[..i] + ":" + t[i + 1..];
    }
  }

  predicate Gives(secrets: Secrets, kid: string, secret: string) {
    kid in secrets && secrets[kid] == secret
  }

  ghost predicate NoEntry(p: string, kid: string) {
    forall secret :: !IsEntry(p, kid, secret)
  }

  ghost predicate Decided(parts: seq<string>, kid: string, secret: string) {
    exists i :: Decides(parts, i, kid, secret)
  }

  lemma EntryIsAdded(secrets: Secrets, p: string, kid: string, secret: string)
    ensures Gives(AddVerifierEntry(secrets, TrimSpace(p)), kid, secret) <==>
              IsEntry(p, kid, secret) || (NoEntry(p, kid) && Gives(secrets, kid, secret))
  {
    var t := TrimSpace(p);
    forall other ensures IsEntry(p, kid, other) <==>
                           ':' in t && kid == t[..Index(t, ':')] && other == t[Index(t, ':') + 1..]
    {
      EntryOf(p, kid, other);
    }
    if ':' in t && kid == t[..Index(t, ':')] {
      assert IsEntry(p, kid, t[Index(t, ':') + 1..]);
    }
  }

  lemma LastPieceDecides(parts: seq<string>, kid: string, secret: string)
    requires parts != []
    ensures var front, last := parts[..|parts| - 1], parts[|parts| - 1];
            Decided(parts, kid, secret) <==>
              IsEntry(last, kid, secret) || (NoEntry(last, kid) && Decided(front, kid, secret))
  {
    var n := |parts| - 1;
    var front := parts[..n];
    if i :| Decides(parts, i, kid, secret) {
      if i < n {
        assert Decides(front, i, kid, secret);
      }
    }
    if IsEntry(parts[n], kid, secret) {
      assert Decides(parts, n, kid, secret);
    } else if NoEntry(parts[n], kid) {
      if i :| Decides(front, i, kid, secret) {
        assert Decides(parts, i, kid, secret);
      }
    }
  }

  lemma {:induction false} PartsAreListed(parts: seq<string>, kid: string, secret: string)
    ensures Gives(VerifierParts(parts), kid, secret) <==> Decided(parts, kid, secret)
  {
    if parts != [] {
      var n := |parts| - 1;
      PartsAreListed(parts[..n], kid, secret);
      EntryIsAdded(VerifierParts(parts[..n]), parts[n], kid, secret);
      LastPieceDecides(parts, kid, secret);
    }
  }

  /** JWT_KEYS gives an id the secret of the last comma-separated piece that is an entry for it, and no other. */
  lemma ListedIff(raw: string, kid: string, secret: string)
    ensures kid in Listed(raw) && Listed(raw)[kid] == secret <==> Decided(Split(raw, ','), kid, secret)
  {
    PartsAreListed(Split(raw, ','), kid, secret);
  }

  // ----- Which secret each side picks -----

  /** `Login` and `Refresh` sign with this secret under the current key id; an unknown id gives nil. */
  function SigningSecret(provider: EnvProvider): string {
    if provider.current in provider.secrets then provider.secrets[provider.current] else ""
  }

  /** The secrets that the key function of `AuthWith` may return for a token header `kid`. */
  ghost predicate MiddlewareMaySelect(secrets: Secrets, kid: string, secret: string) {
    if kid != "" && kid in secrets then secret == secrets[kid] else secret in secrets.Values
  }

  /** The key function of `Logout`; None is the malformed-token error. */
  function LogoutSelects(provider: EnvProvider, kid: string): Option<string> {
    if kid != "" && kid in provider.secrets then Some(provider.secrets[kid])
    else if provider.current in provider.secrets then Some(provider.secrets[provider.current])
    else None
  }

  /** Every possible choice of the middleware, and the choice of logout, is the signing secret. */
  ghost predicate AllPickSigningSecret(verifier: Secrets, provider: EnvProvider) {
    && (forall s | MiddlewareMaySelect(verifier, provider.current, s) :: s == SigningSecret(provider))
    && LogoutSelects(provider, provider.current) == Some(SigningSecret(provider))
  }

  /** What an operator can check of the three settings. */
  ghost predicate CurrentKeyUsable(listed: Secrets, current: string, secret: string) {
    if listed == map[] then secret != ""
    else
      && current in listed
      && (current == "" ==> forall k | k in listed :: listed[k] == listed[current])
  }

  lemma AgreeOnListedKeys(listed: Secrets, current: string)
    requires listed != map[]
    ensures AllPickSigningSecret(listed, EnvProvider(current, listed)) <==> CurrentKeyUsable(listed, current, "")
  {
    var provider := EnvProvider(current, listed);
    if current == "" && current in listed && AllPickSigningSecret(listed, provider) {
      forall k | k in listed ensures listed[k] == listed[current] {
        assert MiddlewareMaySelect(listed, current, listed[k]);
      }
    }
  }

  lemma AgreeOnDefaultKey(kid: string, current: string, secret: string)
    ensures AllPickSigningSecret(map[kid := secret], EnvProvider(current, map[current := secret]))
  {
    forall s | MiddlewareMaySelect(map[kid := secret], current, s) ensures s == secret {
    }
  }

  /** Signer, middleware and logout use one secret exactly for the usable environments. */
  lemma SignerAndVerifiersAgree(env: Env)
    ensures AllPickSigningSecret(VerifierSecrets(env), SignerProvider(env))
            <==> CurrentKeyUsable(Listed(env.keys), TrimSpace(env.currentKid), env.secret)
  {
    ParsersAgree(env.keys);
    var listed, provider := Listed(env.keys), SignerProvider(env);
    if listed != map[] {
      assert provider == EnvProvider(TrimSpace(env.currentKid), listed);
      AgreeOnListedKeys(listed, provider.current);
    } else if env.secret != "" {
      assert provider == EnvProvider(provider.current, map[provider.current := env.secret]);
      AgreeOnDefaultKey("default", provider.current, env.secret);
    } else {
      assert provider.secrets == map[];
    }
  }

  /** An unlisted current kid beside a non-empty list: the signer uses the empty secret and logout rejects. */
  lemma UnlistedCurrentKidDisagrees(env: Env)
    requires Listed(env.keys) != map[] && TrimSpace(env.currentKid) !in Listed(env.keys)
    ensures SigningSecret(SignerProvider(env)) == ""
    ensures LogoutSelects(SignerProvider(env), SignerProvider(env).current) == None
  {
    ParsersAgree(env.keys);
  }

  // ----- Writing a key list and rotating keys -----

  datatype Entry = Entry(kid: string, secret: string)

  /** The line that `jwtkeygen` prints. */
  function Line(e: Entry): string {
    e.kid + ":" + e.secret
  }

  predicate Listable(e: Entry) {
    ':' !in e.kid && ',' !in Line(e) && Trimmed(Line(e))
  }

  function Lines(entries: seq<Entry>): seq<string> {
    if entries == [] then [] else Lines(entries[..|entries| - 1]) + [Line(entries[|entries| - 1])]
  }

  lemma ListableParses(secrets: Secrets, e: Entry)
    requires Listable(e)
    ensures AddVerifierEntry(secrets, TrimSpace(Line(e))) == secrets[e.kid := e.secret]
  {
    var p := Line(e);
    TrimmedIsFixed(p);
    assert p[|e.kid|] == ':';
    var i := Index(p, ':');
    assert i >= |e.kid|;
    assert i <= |e.kid|;
    assert p[..i] == e.kid && p[i + 1..] == e.secret;
  }

  /** Appending an entry to any JWT_KEYS value adds that entry and keeps the others. */
  lemma AppendedKey(raw: string, e: Entry)
    requires Listable(e)
    ensures Listed(raw + "," + Line(e)) == Listed(raw)[e.kid := e.secret]
  {
    SplitAppend(raw, ',', Line(e));
    SplitSingle(Line(e), ',');
    var parts := Split(raw, ',');
    assert (parts + [Line(e)])[..|parts|] == parts;
    ListableParses(Listed(raw), e);
  }

  lemma {:induction false} JoinLast(parts: seq<string>, last: string, sep: char)
    requires parts != []
    ensures Join(parts + [last], sep) == Join(parts, sep) + [sep] + last
  {
    if |parts| > 1 {
      assert (parts + [last])[1..] == parts[1..] + [last];
      JoinLast(parts[1..], last, sep);
    }
  }

  lemma AppendedLine(front: seq<Entry>, e: Entry)
    requires Listable(e)
    ensures Listed(Join(Lines(front + [e]), ',')) == Listed(Join(Lines(front), ','))[e.kid := e.secret]
  {
    assert (front + [e])[..|front|] == front;
    if front == [] {
      assert Lines([e]) == [Line(e)];
      SplitSingle(Line(e), ',');
      ListableParses(map[], e);
      assert [Line(e)][..0] == [] && Split("", ',')[..0] == [];
    } else {
      JoinLast(Lines(front), Line(e), ',');
      AppendedKey(Join(Lines(front), ','), e);
    }
  }

  /** `secrets` holds exactly the entries. */
  ghost predicate HoldsExactly(secrets: Secrets, entries: seq<Entry>) {
    && (forall e | e in entries :: e.kid in secrets && secrets[e.kid] == e.secret)
    && (forall kid | kid in secrets :: Entry(kid, secrets[kid]) in entries)
  }

  lemma HoldsOneMore(secrets: Secrets, front: seq<Entry>, e: Entry)
    requires HoldsExactly(secrets, front)
    requires forall f | f in front :: f.kid != e.kid
    ensures HoldsExactly(secrets[e.kid := e.secret], front + [e])
  {
  }

  /** Loading a comma-joined list of entries with distinct kids gives exactly those entries. */
  lemma {:induction false} KeyListRoundTrip(entries: seq<Entry>)
    requires forall i | 0 <= i < |entries| :: Listable(entries[i])
    requires forall i, j | 0 <= i < j < |entries| :: entries[i].kid != entries[j].kid
    ensures HoldsExactly(Listed(Join(Lines(entries), ',')), entries)
  {
    if entries == [] {
      NothingListed();
    } else {
      var front, e := entries[..|entries| - 1], entries[|entries| - 1];
      KeyListRoundTrip(front);
      ListsOneMore(front, e);
      assert front + [e] == entries;
    }
  }

  lemma ListsOneMore(front: seq<Entry>, e: Entry)
    requires HoldsExactly(Listed(Join(Lines(front), ',')), front)
    requires Listable(e) && forall f | f in front :: f.kid != e.kid
    ensures HoldsExactly(Listed(Join(Lines(front + [e]), ',')), front + [e])
  {
    AppendedLine(front, e);
    HoldsOneMore(Listed(Join(Lines(front), ',')), front, e);
  }

  lemma ProviderOfListed(env: Env)
    requires Listed(env.keys) != map[]
    ensures VerifierSecrets(env) == Listed(env.keys)
    ensures SignerProvider(env) == EnvProvider(TrimSpace(env.currentKid), Listed(env.keys))
  {
    ParsersAgree(env.keys);
  }

  lemma SelectionKept(listed: Secrets, e: Entry, kid: string, p: EnvProvider, q: EnvProvider)
    requires kid in listed && kid != "" && kid != e.kid
    requires p.secrets == listed && q.secrets == listed[e.kid := e.secret]
    ensures forall s :: MiddlewareMaySelect(q.secrets, kid, s) <==> MiddlewareMaySelect(listed, kid, s)
    ensures LogoutSelects(q, kid) == LogoutSelects(p, kid)
  {
  }

  /**
    The documented rotation: append a new entry and make it current.  Tokens signed under
    any older listed id are still checked with their old secret, by the middleware and by
    logout, and new tokens are signed and checked with the new secret.
   */
  lemma RotationKeepsOldKeys(env: Env, e: Entry, kid: string, rotated: Env)
    requires Listable(e) && e.kid != "" && Trimmed(e.kid)
    requires kid in Listed(env.keys) && kid != "" && kid != e.kid
    requires rotated == Env(env.keys + "," + Line(e), e.kid, env.secret)
    ensures forall s :: MiddlewareMaySelect(VerifierSecrets(rotated), kid, s)
                        <==> MiddlewareMaySelect(VerifierSecrets(env), kid, s)
    ensures LogoutSelects(SignerProvider(rotated), kid) == LogoutSelects(SignerProvider(env), kid)
    ensures AllPickSigningSecret(VerifierSecrets(rotated), SignerProvider(rotated))
    ensures SigningSecret(SignerProvider(rotated)) == e.secret
  {
    AppendedKey(env.keys, e);
    ProviderOfListed(env);
    ProviderOfListed(rotated);
    TrimmedIsFixed(e.kid);
    SelectionKept(Listed(env.keys), e, kid, SignerProvider(env), SignerProvider(rotated));
    AgreeOnListedKeys(Listed(rotated.keys), e.kid);
  }
}
