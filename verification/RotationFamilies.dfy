/** The family of each login: the chain of tokens that its rotations hand out. */
module RotationFamilies {
  import opened Wrappers
  import opened RefreshTokens
  import opened RotationHistory

  /** The tokens of one login, oldest first. */
  datatype Chain = Chain(uid: int, toks: seq<Token>)

  function Last(c: Chain): Token
    requires c.toks != []
  {
    c.toks[|c.toks| - 1]
  }

  /** The chain that holds `tok`, or -1. */
  function ChainOf(chains: seq<Chain>, tok: Token): (a: int)
    ensures -1 <= a < |chains|
    ensures a >= 0 ==> tok in chains[a].toks
    ensures a == -1 ==> forall b | 0 <= b < |chains| :: tok !in chains[b].toks
  {
    if chains == [] then -1
    else
      var n := |chains| - 1;
      if tok in chains[n].toks then n else ChainOf(chains[..n], tok)
  }

  /** An issued token starts a chain; a rotated token is appended to the chain of the old one. */
  function Extend(chains: seq<Chain>, c: Call, outcome: Outcome): seq<Chain> {
    if !outcome.Granted? then chains
    else match c
      case Issue(tok, uid, _) => chains + [Chain(uid, [tok])]
      case Rotate(tok, newTok, _) =>
        var a := ChainOf(chains, tok);
        if a == -1 then chains else chains[a := chains[a].(toks := chains[a].toks + [newTok])]
      case _ => chains
  }

  function ChainsAfter(run: seq<Txn>): seq<Chain> {
    if run == [] then []
    else
      var n := |run| - 1;
      Extend(ChainsAfter(run[..n]), run[n].call, TableOutcome(run, n))
  }

  predicate On(chains: seq<Chain>, a: int, i: int, tok: Token) {
    0 <= a < |chains| && 0 <= i < |chains[a].toks| && chains[a].toks[i] == tok
  }

  ghost predicate OnNone(chains: seq<Chain>, tok: Token) {
    forall a, i :: !On(chains, a, i, tok)
  }

  /** Chains share no token, own the rows of their user, and only their last token can be unused. */
  ghost predicate FamilyInv(t: Table, chains: seq<Chain>) {
    && (forall a | 0 <= a < |chains| :: chains[a].toks != [])
    && (forall a, i, b, j, tok :: On(chains, a, i, tok) && On(chains, b, j, tok) ==> a == b && i == j)
    && (forall tok | tok in t :: exists a, i :: On(chains, a, i, tok))
    && (forall a, i, tok :: On(chains, a, i, tok) && tok in t ==>
          t[tok].uid == chains[a].uid && (t[tok].usedAt.None? ==> i == |chains[a].toks| - 1))
  }

  lemma ShrunkTable(t: Table, t': Table, chains: seq<Chain>)
    requires FamilyInv(t, chains)
    requires forall tok | tok in t' ::
               tok in t && t'[tok].uid == t[tok].uid && (t'[tok].usedAt.None? ==> t[tok].usedAt.None?)
    ensures FamilyInv(t', chains)
  {
  }

  lemma NewChain(t: Table, chains: seq<Chain>, tok: Token, uid: int, exp: int)
    requires FamilyInv(t, chains)
    requires OnNone(chains, tok)
    ensures FamilyInv(t[tok := Row(uid, exp, None)], chains + [Chain(uid, [tok])])
  {
    var t', chains' := t[tok := Row(uid, exp, None)], chains + [Chain(uid, [tok])];
    assert forall a, i, x :: On(chains', a, i, x) <==> On(chains, a, i, x) || (a == |chains| && i == 0 && x == tok);
    forall x | x in t' ensures exists a, i :: On(chains', a, i, x) {
      if x == tok {
        assert On(chains', |chains|, 0, tok);
      } else {
        var a, i :| On(chains, a, i, x);
        assert On(chains', a, i, x);
      }
    }
  }

  lemma LongerChainHolds(chains: seq<Chain>, a: nat, newTok: Token)
    requires a < |chains|
    ensures var m, chains' := |chains[a].toks|, chains[a := chains[a].(toks := chains[a].toks + [newTok])];
            forall b, i, x :: On(chains', b, i, x) <==> On(chains, b, i, x) || (b == a && i == m && x == newTok)
  {
  }

  /** Marking the last token of chain `a` and appending a new one to it. */
  lemma LongerChain(t: Table, chains: seq<Chain>, a: nat, tok: Token, at: int, newTok: Token, exp: int)
    requires FamilyInv(t, chains) && a < |chains| && tok in t && Last(chains[a]) == tok
    requires OnNone(chains, newTok)
    ensures FamilyInv(MarkUsed(t, tok, at)[newTok := Row(t[tok].uid, exp, None)],
                      chains[a := chains[a].(toks := chains[a].toks + [newTok])])
  {
    var m := |chains[a].toks|;
    var t' := MarkUsed(t, tok, at)[newTok := Row(t[tok].uid, exp, None)];
    var chains' := chains[a := chains[a].(toks := chains[a].toks + [newTok])];
    assert On(chains, a, m - 1, tok);
    LongerChainHolds(chains, a, newTok);
    forall x | x in t' ensures exists b, i :: On(chains', b, i, x) {
      if x == newTok {
        assert On(chains', a, m, newTok);
      } else {
        var b, i :| On(chains, b, i, x);
        assert On(chains', b, i, x);
      }
    }
    forall b, i, x | On(chains', b, i, x) && x in t'
      ensures t'[x].uid == chains'[b].uid && (t'[x].usedAt.None? ==> i == |chains'[b].toks| - 1)
    {
      assert x != newTok ==> On(chains, b, i, x) && x in t;
    }
  }

  lemma UnusedIsLast(t: Table, chains: seq<Chain>, tok: Token)
    requires FamilyInv(t, chains) && tok in t && t[tok].usedAt.None?
    ensures ChainOf(chains, tok) >= 0 && Last(chains[ChainOf(chains, tok)]) == tok
    ensures chains[ChainOf(chains, tok)].uid == t[tok].uid
  {
    var a, i :| On(chains, a, i, tok);
    var b := ChainOf(chains, tok);
    var j :| 0 <= j < |chains[b].toks| && chains[b].toks[j] == tok;
    assert On(chains, b, j, tok);
  }

  lemma {:induction false} ChainTokensWereMinted(run: seq<Txn>, a: int, i: int, tok: Token)
    requires On(ChainsAfter(run), a, i, tok)
    ensures exists k :: 0 <= k < |run| && Minted(run[k].call) == Some(tok)
  {
    var n := |run| - 1;
    if On(ChainsAfter(run[..n]), a, i, tok) {
      ChainTokensWereMinted(run[..n], a, i, tok);
      var k :| 0 <= k < n && Minted(run[..n][k].call) == Some(tok);
      assert Minted(run[k].call) == Some(tok);
    } else {
      assert Minted(run[n].call) == Some(tok);
    }
  }

  lemma MintIsNew(run: seq<Txn>, tok: Token)
    requires run != [] && FreshTokens(run) && Minted(run[|run| - 1].call) == Some(tok)
    ensures OnNone(ChainsAfter(run[..|run| - 1]), tok)
  {
    var front := run[..|run| - 1];
    forall a, i ensures !On(ChainsAfter(front), a, i, tok) {
      if On(ChainsAfter(front), a, i, tok) {
        ChainTokensWereMinted(front, a, i, tok);
      }
    }
  }

  lemma ExecKeepsFamilies(t: Table, chains: seq<Chain>, c: Call, times: Times)
    requires FamilyInv(t, chains)
    requires Minted(c).Some? ==> OnNone(chains, Minted(c).value)
    ensures var r := Exec(t, c, times); FamilyInv(r.table, Extend(chains, c, r.outcome))
  {
    var r := Exec(t, c, times);
    if c.Issue? && r.outcome.Granted? {
      NewChain(t, chains, c.tok, c.uid, c.expiresAt);
    } else if c.Rotate? && r.outcome.Granted? {
      UnusedIsLast(t, chains, c.tok);
      LongerChain(t, chains, ChainOf(chains, c.tok), c.tok, times.update, c.newTok, c.newExp);
    } else {
      ShrunkTable(t, r.table, chains);
    }
  }

  /** In every reachable state the families have this shape; no assumption on clocks is needed. */
  lemma {:induction false} FamiliesAreChains(run: seq<Txn>)
    requires FreshTokens(run)
    ensures FamilyInv(TableAfter(run), ChainsAfter(run))
  {
    if run != [] {
      var n := |run| - 1;
      FamiliesAreChains(run[..n]);
      if Minted(run[n].call).Some? {
        MintIsNew(run, Minted(run[n].call).value);
      }
      ExecKeepsFamilies(TableAfter(run[..n]), ChainsAfter(run[..n]), run[n].call, run[n].times);
    }
  }

  /** A granted rotation presents the newest token of its family, so families never branch. */
  lemma RotationExtendsNewest(run: seq<Txn>, k: nat)
    requires FreshTokens(run) && k < |run| && run[k].call.Rotate? && TableOutcome(run, k).Granted?
    ensures var chains, tok := ChainsAfter(run[..k]), run[k].call.tok;
            && ChainOf(chains, tok) >= 0 && chains[ChainOf(chains, tok)].toks != []
            && Last(chains[ChainOf(chains, tok)]) == tok
            && chains[ChainOf(chains, tok)].uid == TableOutcome(run, k).uid
  {
    FamiliesAreChains(run[..k]);
    UnusedIsLast(TableAfter(run[..k]), ChainsAfter(run[..k]), run[k].call.tok);
  }

  // ----- Sessions -----

  /** Transaction `k` is a granted rotation of `tok` into `next`. */
  ghost predicate Rotated(run: seq<Txn>, k: nat, tok: Token, next: Token) {
    && k < |run| && run[k].call.Rotate? && run[k].call.tok == tok && run[k].call.newTok == next
    && TableOutcome(run, k).Granted?
  }

  ghost predicate Leads(run: seq<Txn>, tok: Token, next: Token) {
    exists k: nat :: Rotated(run, k, tok, next)
  }

  ghost predicate LogsIn(run: seq<Txn>, login: nat, tok: Token) {
    login < |run| && run[login].call.Issue? && run[login].call.tok == tok && TableOutcome(run, login).Granted?
  }

  /** `path` leads from the token of the login at transaction `login` through granted rotations. */
  ghost predicate Session(run: seq<Txn>, login: nat, path: seq<Token>)
    decreases |path|
  {
    var n := |path| - 1;
    if n < 0 then false
    else if n == 0 then LogsIn(run, login, path[0])
    else Session(run, login, path[..n]) && Leads(run, path[n - 1], path[n])
  }

  lemma OutcomeInPrefix(run: seq<Txn>, n: nat, k: nat)
    requires k < n <= |run|
    ensures TableOutcome(run[..n], k) == TableOutcome(run, k)
  {
    assert run[..n][..k] == run[..k];
  }

  lemma {:induction false} SessionGrows(run: seq<Txn>, n: nat, login: nat, path: seq<Token>)
    requires n <= |run| && Session(run[..n], login, path)
    ensures Session(run, login, path) && login < n
    decreases |path|
  {
    var m := |path| - 1;
    if m == 0 {
      OutcomeInPrefix(run, n, login);
    } else {
      SessionGrows(run, n, login, path[..m]);
      LeadsInPrefix(run, n, path[m - 1], path[m]);
    }
  }

  lemma LeadsInPrefix(run: seq<Txn>, n: nat, tok: Token, next: Token)
    requires n <= |run| && Leads(run[..n], tok, next)
    ensures Leads(run, tok, next)
  {
    var k: nat :| Rotated(run[..n], k, tok, next);
    OutcomeInPrefix(run, n, k);
    assert Rotated(run, k, tok, next);
  }

  lemma LongerSession(run: seq<Txn>, login: nat, path: seq<Token>, k: nat, next: Token)
    requires Session(run, login, path) && Rotated(run, k, path[|path| - 1], next)
    ensures Session(run, login, path + [next])
  {
    var longer := path + [next];
    assert Leads(run, path[|path| - 1], next);
    assert longer[..|longer| - 1] == path && longer[|longer| - 2] == path[|path| - 1];
  }

  ghost predicate SessionOf(run: seq<Txn>, login: nat, c: Chain) {
    Session(run, login, c.toks) && login < |run| && run[login].call.Issue? && run[login].call.uid == c.uid
  }

  /** The chain is the session of a login of its user. */
  ghost predicate IsSession(run: seq<Txn>, c: Chain) {
    exists login: nat :: SessionOf(run, login, c)
  }

  lemma NewSession(run: seq<Txn>, k: nat)
    requires k < |run| && run[k].call.Issue? && TableOutcome(run, k).Granted?
    ensures IsSession(run, Chain(run[k].call.uid, [run[k].call.tok]))
  {
    assert SessionOf(run, k, Chain(run[k].call.uid, [run[k].call.tok]));
  }

  lemma RotatedSession(run: seq<Txn>, c: Chain, k: nat, next: Token)
    requires IsSession(run, c) && c.toks != [] && Rotated(run, k, Last(c), next)
    ensures IsSession(run, c.(toks := c.toks + [next]))
  {
    var login: nat :| SessionOf(run, login, c);
    LongerSession(run, login, c.toks, k, next);
    assert SessionOf(run, login, c.(toks := c.toks + [next]));
  }

  lemma SameSession(run: seq<Txn>, n: nat, c: Chain)
    requires n <= |run| && IsSession(run[..n], c)
    ensures IsSession(run, c)
  {
    var login: nat :| SessionOf(run[..n], login, c);
    SessionGrows(run, n, login, c.toks);
    assert SessionOf(run, login, c);
  }

  ghost predicate AllSessions(run: seq<Txn>, chains: seq<Chain>) {
    forall a | 0 <= a < |chains| :: IsSession(run, chains[a])
  }

  /** The last transaction starts a session, continues one, or leaves all as they are. */
  lemma LastExtendsSessions(run: seq<Txn>)
    requires run != [] && FreshTokens(run)
    requires AllSessions(run, ChainsAfter(run[..|run| - 1]))
    ensures AllSessions(run, ChainsAfter(run))
  {
    var n := |run| - 1;
    var front, c := ChainsAfter(run[..n]), run[n].call;
    if TableOutcome(run, n).Granted? && c.Issue? {
      NewSession(run, n);
    } else if TableOutcome(run, n).Granted? && c.Rotate? {
      RotationExtendsNewest(run, n);
      assert Rotated(run, n, c.tok, c.newTok);
      RotatedSession(run, front[ChainOf(front, c.tok)], n, c.newTok);
    }
    ExtendKeepsSessions(run, front, c, TableOutcome(run, n));
  }

  lemma ExtendKeepsSessions(run: seq<Txn>, chains: seq<Chain>, c: Call, outcome: Outcome)
    requires AllSessions(run, chains)
    requires outcome.Granted? && c.Issue? ==> IsSession(run, Chain(c.uid, [c.tok]))
    requires outcome.Granted? && c.Rotate? && ChainOf(chains, c.tok) >= 0 ==>
               var mine := chains[ChainOf(chains, c.tok)]; IsSession(run, mine.(toks := mine.toks + [c.newTok]))
    ensures AllSessions(run, Extend(chains, c, outcome))
  {
  }

  lemma SameSessions(run: seq<Txn>, n: nat, chains: seq<Chain>)
    requires n <= |run| && AllSessions(run[..n], chains)
    ensures AllSessions(run, chains)
  {
    forall a | 0 <= a < |chains| ensures IsSession(run, chains[a]) {
      SameSession(run, n, chains[a]);
    }
  }

  /** Every chain is the session of a login of its user. */
  lemma {:induction false} ChainsAreSessions(run: seq<Txn>)
    requires FreshTokens(run)
    ensures AllSessions(run, ChainsAfter(run))
  {
    if run != [] {
      var n := |run| - 1;
      ChainsAreSessions(run[..n]);
      SameSessions(run, n, ChainsAfter(run[..n]));
      LastExtendsSessions(run);
    }
  }

  lemma MintedByOne(run: seq<Txn>, j: nat, k: nat)
    requires FreshTokens(run) && j < |run| && k < |run|
    requires Minted(run[j].call).Some? && Minted(run[j].call) == Minted(run[k].call)
    ensures j == k
  {
  }

  /** The transaction that put the last token of a session into the table. */
  lemma LastMint(run: seq<Txn>, login: nat, path: seq<Token>) returns (k: nat)
    requires Session(run, login, path)
    ensures k < |run| && Minted(run[k].call) == Some(path[|path| - 1])
    ensures if |path| == 1 then k == login && run[k].call.Issue?
            else Session(run, login, path[..|path| - 1]) && run[k].call.Rotate? && run[k].call.tok == path[|path| - 2]
  {
    if |path| == 1 {
      k := login;
    } else {
      assert Leads(run, path[|path| - 2], path[|path| - 1]);
      k :| Rotated(run, k, path[|path| - 2], path[|path| - 1]);
    }
  }

  function Front(path: seq<Token>): (front: seq<Token>)
    requires path != []
    ensures |front| == |path| - 1 && (front != [] ==> front[|front| - 1] == path[|path| - 2])
  {
    path[..|path| - 1]
  }

  ghost predicate SameEnd(run: seq<Txn>, l: nat, path: seq<Token>, m: nat, other: seq<Token>) {
    && Session(run, l, path) && Session(run, m, other)
    && path[|path| - 1] == other[|other| - 1]
  }

  /** Two sessions that end in one token were both started by it, or both reached it from one token. */
  lemma SameLastMint(run: seq<Txn>, l: nat, path: seq<Token>, m: nat, other: seq<Token>)
    requires FreshTokens(run) && SameEnd(run, l, path, m, other)
    ensures |path| == 1 ==> path == other && l == m
    ensures |path| > 1 ==> |other| > 1 && SameEnd(run, l, Front(path), m, Front(other))
  {
    var j := LastMint(run, l, path);
    var k := LastMint(run, m, other);
    MintedByOne(run, j, k);
  }

  lemma SameParts(path: seq<Token>, other: seq<Token>)
    requires path != [] && other != [] && path[|path| - 1] == other[|other| - 1]
    requires Front(path) == Front(other)
    ensures path == other
  {
    assert path == path[..|path| - 1] + [path[|path| - 1]];
    assert other == other[..|other| - 1] + [other[|other| - 1]];
  }

  /** A token belongs to one session only, at one place of it. */
  lemma {:induction false} SessionIsUnique(run: seq<Txn>, l: nat, path: seq<Token>, m: nat, other: seq<Token>)
    requires FreshTokens(run) && SameEnd(run, l, path, m, other)
    ensures l == m && path == other
    decreases |path|
  {
    SameLastMint(run, l, path, m, other);
    if |path| > 1 {
      SessionIsUnique(run, l, Front(path), m, Front(other));
      SameParts(path, other);
    }
  }

  /** An unused row's token ends a session of the row's user. */
  lemma UnusedInSession(run: seq<Txn>, tok: Token) returns (c: Chain)
    requires FreshTokens(run) && tok in TableAfter(run) && TableAfter(run)[tok].usedAt.None?
    ensures IsSession(run, c) && c.toks != [] && Last(c) == tok && c.uid == TableAfter(run)[tok].uid
  {
    var chains := ChainsAfter(run);
    FamiliesAreChains(run);
    UnusedIsLast(TableAfter(run), chains, tok);
    ChainsAreSessions(run);
    c := chains[ChainOf(chains, tok)];
  }

  lemma GrantedWasUnused(t: Table, c: Call, times: Times)
    requires (c.Use? || c.Rotate?) && Exec(t, c, times).outcome.Granted?
    ensures c.tok in t && t[c.tok].usedAt.None? && Exec(t, c, times).outcome == Granted(t[c.tok].uid)
  {
  }

  /** What a granted transaction presents is the last token of a session of the user it answers. */
  lemma GrantedInSession(run: seq<Txn>, k: nat) returns (login: nat, path: seq<Token>)
    requires FreshTokens(run) && k < |run| && (run[k].call.Use? || run[k].call.Rotate?) && TableOutcome(run, k).Granted?
    ensures Session(run[..k], login, path) && path[|path| - 1] == run[k].call.tok
    ensures login < k && run[login].call.Issue? && run[login].call.uid == TableOutcome(run, k).uid
  {
    GrantedWasUnused(TableAfter(run[..k]), run[k].call, run[k].times);
    var c := UnusedInSession(run[..k], run[k].call.tok);
    login :| SessionOf(run[..k], login, c);
    path := c.toks;
  }

  /**
    A granted use or rotation answers with the user whose login started the session of the
    presented token: there is such a session, and it is the only one.
   */
  lemma SessionNamesLoginUser(run: seq<Txn>, k: nat)
    requires FreshTokens(run) && k < |run| && (run[k].call.Use? || run[k].call.Rotate?) && TableOutcome(run, k).Granted?
    ensures exists login: nat, path :: Session(run[..k], login, path) && path[|path| - 1] == run[k].call.tok
    ensures forall login: nat, path | Session(run[..k], login, path) && path[|path| - 1] == run[k].call.tok ::
              login < k && run[login].call.Issue? && TableOutcome(run, k) == Granted(run[login].call.uid)
  {
    var login, path := GrantedInSession(run, k);
    forall l: nat, other | Session(run[..k], l, other) && other[|other| - 1] == run[k].call.tok
      ensures l < k && run[l].call.Issue? && TableOutcome(run, k) == Granted(run[l].call.uid)
    {
      SessionIsUnique(run[..k], login, path, l, other);
    }
  }

  // ----- Counting live logins -----

  function Unused(t: Table, uid: int): set<Token> {
    set tok | tok in t && t[tok].uid == uid && t[tok].usedAt.None?
  }

  function LoginsOf(run: seq<Txn>, uid: int): nat {
    if run == [] then 0
    else
      var n := |run| - 1;
      LoginsOf(run[..n], uid) + if run[n].call.Issue? && run[n].call.uid == uid then 1 else 0
  }

  function ChainsOf(chains: seq<Chain>, uid: int): nat {
    if chains == [] then 0
    else
      var n := |chains| - 1;
      ChainsOf(chains[..n], uid) + if chains[n].uid == uid then 1 else 0
  }

  function Newest(chains: seq<Chain>, uid: int): set<Token> {
    if chains == [] then {}
    else
      var n := |chains| - 1;
      Newest(chains[..n], uid) + if chains[n].uid == uid && chains[n].toks != [] then {Last(chains[n])} else {}
  }

  lemma {:induction false} NewestBounded(chains: seq<Chain>, uid: int)
    ensures |Newest(chains, uid)| <= ChainsOf(chains, uid)
    ensures forall a | 0 <= a < |chains| && chains[a].uid == uid && chains[a].toks != [] ::
              Last(chains[a]) in Newest(chains, uid)
  {
    if chains != [] {
      var n := |chains| - 1;
      var front := chains[..n];
      NewestBounded(front, uid);
      forall a | 0 <= a < |chains| && chains[a].uid == uid && chains[a].toks != []
        ensures Last(chains[a]) in Newest(chains, uid)
      {
        assert a < n ==> front[a] == chains[a];
      }
    }
  }

  lemma {:induction false} SameOwnerSameCount(chains: seq<Chain>, a: nat, c: Chain, uid: int)
    requires a < |chains| && c.uid == chains[a].uid
    ensures ChainsOf(chains[a := c], uid) == ChainsOf(chains, uid)
  {
    var n := |chains| - 1;
    if a < n {
      assert chains[a := c][..n] == chains[..n][a := c];
      SameOwnerSameCount(chains[..n], a, c, uid);
    } else {
      assert chains[a := c][..n] == chains[..n];
    }
  }

  lemma {:induction false} ChainsAreLogins(run: seq<Txn>, uid: int)
    ensures ChainsOf(ChainsAfter(run), uid) <= LoginsOf(run, uid)
  {
    if run != [] {
      var n := |run| - 1;
      ChainsAreLogins(run[..n], uid);
      var before, c := ChainsAfter(run[..n]), run[n].call;
      if c.Issue? {
        assert (before + [Chain(c.uid, [c.tok])])[..|before|] == before;
      } else if c.Rotate? && ChainOf(before, c.tok) != -1 {
        var a := ChainOf(before, c.tok);
        SameOwnerSameCount(before, a, before[a].(toks := before[a].toks + [c.newTok]), uid);
      }
    }
  }

  lemma {:induction false} CardinalityMonotone(a: set<Token>, b: set<Token>)
    requires a <= b
    ensures |a| <= |b|
  {
    if a != {} {
      var x :| x in a;
      CardinalityMonotone(a - {x}, b - {x});
    }
  }

  /** A user never has more unused refresh tokens than logins. */
  lemma UnusedAtMostLogins(run: seq<Txn>, uid: int)
    requires FreshTokens(run)
    ensures |Unused(TableAfter(run), uid)| <= LoginsOf(run, uid)
  {
    var t, chains := TableAfter(run), ChainsAfter(run);
    FamiliesAreChains(run);
    NewestBounded(chains, uid);
    ChainsAreLogins(run, uid);
    forall tok | tok in Unused(t, uid) ensures tok in Newest(chains, uid) {
      UnusedIsLast(t, chains, tok);
    }
    CardinalityMonotone(Unused(t, uid), Newest(chains, uid));
  }
}
