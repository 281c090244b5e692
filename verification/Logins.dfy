/** Logins are copy-on-write: a host, its gateway and a group each point at one,
    an import may leave one shared, and the first edit copies it. */
module Logins {
  import opened Basics

  datatype Error = PasswordRequired | UsernameRequired | VaultLocked | UnknownHost | UnknownGroup

  datatype PasswordChange = Keep | Set(value: string) | Forget

  datatype LoginChange = LoginChange(username: string, domain: string, password: PasswordChange)

  datatype Host = Host(deleted: bool, login: Option<nat>, gateway: Option<nat>)
  datatype Group = Group(deleted: bool, login: Option<nat>)
  datatype Login = Login(deleted: bool, username: string, domain: string, secret: Option<nat>)
  /** A forgotten secret keeps nothing. */
  datatype Secret = Secret(deleted: bool, text: string)

  datatype Owner = HostLogin(id: nat) | HostGateway(id: nat) | GroupLogin(id: nat)

  datatype Applied = Applied(identity: Option<nat>, release: Option<nat>)
  datatype Both = Both(own: Applied, gate: Applied)

  /** What an owner's login comes to. */
  datatype View = View(username: string, domain: string, password: Option<string>)

  // ----- Who points at what -----

  /** The login a live owner points at. */
  function PointsAt(hosts: map<nat, Host>, groups: map<nat, Group>, owner: Owner): Option<nat> {
    match owner
    case HostLogin(id) => if id in hosts && !hosts[id].deleted then hosts[id].login else None
    case HostGateway(id) => if id in hosts && !hosts[id].deleted then hosts[id].gateway else None
    case GroupLogin(id) => if id in groups && !groups[id].deleted then groups[id].login else None
  }

  function HostsWith(hosts: map<nat, Host>, login: nat): set<nat> {
    set id | id in hosts && !hosts[id].deleted && hosts[id].login == Some(login)
  }

  function GatewaysWith(hosts: map<nat, Host>, login: nat): set<nat> {
    set id | id in hosts && !hosts[id].deleted && hosts[id].gateway == Some(login)
  }

  function GroupsWith(groups: map<nat, Group>, login: nat): set<nat> {
    set id | id in groups && !groups[id].deleted && groups[id].login == Some(login)
  }

  function References(hosts: map<nat, Host>, groups: map<nat, Group>, login: nat): nat {
    |HostsWith(hosts, login)| + |GatewaysWith(hosts, login)| + |GroupsWith(groups, login)|
  }

  lemma OneElement(s: set<nat>, x: nat)
    requires x in s
    ensures |s| >= 1
    ensures |s| == 1 ==> s == {x}
  {
    assert s == (s - {x}) + {x};
    if |s| == 1 { assert |s - {x}| == 0; }
  }

  lemma TwoElements(s: set<nat>, x: nat, y: nat)
    requires x in s && y in s && x != y
    ensures |s| >= 2
  {
    OneElement(s - {x}, y);
    assert s == (s - {x}) + {x};
  }

  lemma OwnerCounts(hosts: map<nat, Host>, groups: map<nat, Group>, login: nat, owner: Owner)
    requires PointsAt(hosts, groups, owner) == Some(login)
    ensures References(hosts, groups, login) >= 1
  {
    match owner
    case HostLogin(id) => OneElement(HostsWith(hosts, login), id);
    case HostGateway(id) => OneElement(GatewaysWith(hosts, login), id);
    case GroupLogin(id) => OneElement(GroupsWith(groups, login), id);
  }

  lemma TwoOwnersCount(hosts: map<nat, Host>, groups: map<nat, Group>, login: nat, a: Owner, b: Owner)
    requires PointsAt(hosts, groups, a) == Some(login) && PointsAt(hosts, groups, b) == Some(login) && a != b
    ensures References(hosts, groups, login) >= 2
  {
    if a.HostLogin? && b.HostLogin? {
      TwoElements(HostsWith(hosts, login), a.id, b.id);
    } else if a.HostGateway? && b.HostGateway? {
      TwoElements(GatewaysWith(hosts, login), a.id, b.id);
    } else if a.GroupLogin? && b.GroupLogin? {
      TwoElements(GroupsWith(groups, login), a.id, b.id);
    } else {
      match a {
        case HostLogin(id) => OneElement(HostsWith(hosts, login), id);
        case HostGateway(id) => OneElement(GatewaysWith(hosts, login), id);
        case GroupLogin(id) => OneElement(GroupsWith(groups, login), id);
      }
      match b {
        case HostLogin(id) => OneElement(HostsWith(hosts, login), id);
        case HostGateway(id) => OneElement(GatewaysWith(hosts, login), id);
        case GroupLogin(id) => OneElement(GroupsWith(groups, login), id);
      }
    }
  }

  lemma NoOwners(hosts: map<nat, Host>, groups: map<nat, Group>, login: nat)
    ensures References(hosts, groups, login) == 0 <==>
            forall owner :: PointsAt(hosts, groups, owner) != Some(login)
  {
    if References(hosts, groups, login) == 0 {
      forall owner
        ensures PointsAt(hosts, groups, owner) != Some(login)
      {
        if PointsAt(hosts, groups, owner) == Some(login) { OwnerCounts(hosts, groups, login, owner); }
      }
    } else if HostsWith(hosts, login) != {} {
      var id :| id in HostsWith(hosts, login);
      assert PointsAt(hosts, groups, HostLogin(id)) == Some(login);
    } else if GatewaysWith(hosts, login) != {} {
      var id :| id in GatewaysWith(hosts, login);
      assert PointsAt(hosts, groups, HostGateway(id)) == Some(login);
    } else {
      var id :| id in GroupsWith(groups, login);
      assert PointsAt(hosts, groups, GroupLogin(id)) == Some(login);
    }
  }

  // ----- What holds of the tables -----

  predicate Live(logins: map<nat, Login>, id: nat) {
    id in logins && !logins[id].deleted
  }

  /** No live owner points at a login that is gone. */
  ghost predicate OwnersHold(hosts: map<nat, Host>, groups: map<nat, Group>, logins: map<nat, Login>) {
    forall owner :: PointsAt(hosts, groups, owner).Some? ==> Live(logins, PointsAt(hosts, groups, owner).value)
  }

  /** No live login points at a forgotten secret. */
  predicate SecretsHold(logins: map<nat, Login>, secrets: map<nat, Secret>) {
    forall id :: id in logins && !logins[id].deleted && logins[id].secret.Some? ==>
      logins[id].secret.value in secrets && !secrets[logins[id].secret.value].deleted
  }

  ghost predicate Owned(hosts: map<nat, Host>, groups: map<nat, Group>, id: nat) {
    exists owner :: PointsAt(hosts, groups, owner) == Some(id)
  }

  /** Every live login is somebody's. */
  ghost predicate NoOrphans(hosts: map<nat, Host>, groups: map<nat, Group>, logins: map<nat, Login>) {
    forall id: nat :: Live(logins, id) ==> Owned(hosts, groups, id)
  }

  /** Some live login has this password. */
  ghost predicate InUse(logins: map<nat, Login>, secret: nat) {
    exists l :: Live(logins, l) && logins[l].secret == Some(secret)
  }

  /** No password is left that no live login has, but for these. */
  ghost predicate NoStraysBut(logins: map<nat, Login>, secrets: map<nat, Secret>, spared: set<nat>) {
    forall s :: s in secrets && !secrets[s].deleted ==> s in spared || InUse(logins, s)
  }

  /** A replaced password is gone: every one that can be read is some live login's. */
  ghost predicate NoStrays(logins: map<nat, Login>, secrets: map<nat, Secret>) {
    forall s :: s in secrets && !secrets[s].deleted ==> exists l :: Live(logins, l) && logins[l].secret == Some(s)
  }

  /** The password a login had, if any, is the one it keeps or the one to replace. */
  predicate KeepsOrReplaces(logins: map<nat, Login>, id: nat, secret: Option<nat>, replaced: Option<nat>) {
    Live(logins, id) && logins[id].secret.Some? ==> logins[id].secret == secret || logins[id].secret == replaced
  }

  lemma OnlyNewIsSpared(logins: map<nat, Login>, secrets: map<nat, Secret>, after: map<nat, Secret>,
                        picked: Option<nat>)
    requires NoStrays(logins, secrets)
    requires forall s :: s in after ==> (s in secrets && after[s] == secrets[s]) || picked == Some(s)
    ensures NoStraysBut(logins, after, Given(picked))
  {
  }

  /** A login was written over, and the password it had before, if it was another one
      and nobody else has it, was let go. */
  lemma WrittenOver(logins: map<nat, Login>, secrets: map<nat, Secret>, id: nat, login: Login,
                    replaced: Option<nat>, afterSecrets: map<nat, Secret>)
    requires NoStraysBut(logins, secrets, Given(login.secret)) && !login.deleted
    requires KeepsOrReplaces(logins, id, login.secret, replaced)
    requires afterSecrets.Keys == secrets.Keys
    requires forall s :: s in secrets && Some(s) != replaced ==> afterSecrets[s] == secrets[s]
    requires replaced.Some? && replaced.value in afterSecrets && !afterSecrets[replaced.value].deleted ==>
               InUse(logins[id := login], replaced.value)
    ensures NoStrays(logins[id := login], afterSecrets)
  {
    var after := logins[id := login];
    forall s: nat | s in afterSecrets && !afterSecrets[s].deleted
      ensures exists l: nat :: Live(after, l) && after[l].secret == Some(s)
    {
      if Some(s) != replaced {
        if login.secret == Some(s) {
          assert Live(after, id) && after[id].secret == Some(s);
        } else {
          var l :| Live(logins, l) && logins[l].secret == Some(s);
          assert l != id && after[l] == logins[l] && Live(after, l);
        }
      }
    }
  }

  function TextOf(secret: Option<nat>, secrets: map<nat, Secret>): Option<string> {
    if secret.Some? && secret.value in secrets && !secrets[secret.value].deleted then
      Some(secrets[secret.value].text)
    else None
  }

  function PasswordOf(login: Login, secrets: map<nat, Secret>): Option<string> {
    TextOf(login.secret, secrets)
  }

  function ViewOf(logins: map<nat, Login>, secrets: map<nat, Secret>, id: Option<nat>): Option<View> {
    if id.Some? && Live(logins, id.value) then
      var login := logins[id.value];
      Some(View(login.username, login.domain, PasswordOf(login, secrets)))
    else None
  }

  /** What a form asks for. */
  function Asked(change: LoginChange, before: Option<View>): Option<View> {
    if change.username == "" then None
    else Some(View(change.username, change.domain,
                   match change.password
                   case Keep => if before.Some? then before.value.password else None
                   case Set(value) => Some(value)
                   case Forget => None))
  }

  /** A form that is refused whatever login it is for: it sets an empty password, or
      one without a username, or one while the vault is locked. */
  predicate Refused(change: LoginChange, unlocked: bool) {
    change.password.Set? && (change.password.value == "" || change.username == "" || !unlocked)
  }

  /** What it is refused with. */
  function Refusal(change: LoginChange): Error {
    match change.password
    case Set(value) => if value == "" then PasswordRequired
                       else if change.username == "" then UsernameRequired
                       else VaultLocked
    case _ => VaultLocked
  }

  /** What a call for one owner is refused with: the vault is looked at first, then the owner, then the
      form. */
  function RefusalOf(change: LoginChange, unlocked: bool, known: bool, unknown: Error): Error {
    if change.password.Set? && !unlocked then VaultLocked
    else if !known then unknown
    else Refusal(change)
  }

  /** Nothing but `id` changed among the logins, and the passwords of the others are
      what they were. */
  ghost predicate OnlyTouches(logins: map<nat, Login>, secrets: map<nat, Secret>,
                              after: map<nat, Login>, afterSecrets: map<nat, Secret>, id: nat) {
    && (forall other :: other in logins && other != id ==> other in after && after[other] == logins[other])
    && (forall other :: other in after && other != id ==> other in logins)
    && (forall other :: Live(logins, other) && other != id ==>
          ViewOf(after, afterSecrets, Some(other)) == ViewOf(logins, secrets, Some(other)))
  }

  /** What applying a form to the login of `owner` did. */
  ghost predicate AppliedTo(hosts: map<nat, Host>, groups: map<nat, Group>, owner: Owner,
                            logins: map<nat, Login>, secrets: map<nat, Secret>,
                            after: map<nat, Login>, afterSecrets: map<nat, Secret>, identity: Option<nat>) {
    var current := PointsAt(hosts, groups, owner);
    if identity.None? then after == logins && afterSecrets == secrets
    else
      && (if current.Some? && References(hosts, groups, current.value) <= 1 then identity == current
          else identity.value !in logins)
      && Live(after, identity.value)
      && OnlyTouches(logins, secrets, after, afterSecrets, identity.value)
  }

  /** It did nothing to anybody else. */
  lemma OthersAreUntouched(hosts: map<nat, Host>, groups: map<nat, Group>, owner: Owner,
                           logins: map<nat, Login>, secrets: map<nat, Secret>,
                           after: map<nat, Login>, afterSecrets: map<nat, Secret>, identity: Option<nat>,
                           other: Owner)
    requires AppliedTo(hosts, groups, owner, logins, secrets, after, afterSecrets, identity)
    requires OwnersHold(hosts, groups, logins) && other != owner
    ensures var theirs := PointsAt(hosts, groups, other);
            && ViewOf(after, afterSecrets, theirs) == ViewOf(logins, secrets, theirs)
            && (theirs.Some? ==> Live(after, theirs.value) && identity != theirs)
  {
    var theirs := PointsAt(hosts, groups, other);
    if theirs.Some? && identity == theirs {
      TwoOwnersCount(hosts, groups, theirs.value, owner, other);
    }
  }

  lemma ThreeOwnersCount(hosts: map<nat, Host>, groups: map<nat, Group>, login: nat, h: nat, third: Owner)
    requires PointsAt(hosts, groups, HostLogin(h)) == PointsAt(hosts, groups, HostGateway(h)) == Some(login)
    requires PointsAt(hosts, groups, third) == Some(login) && third != HostLogin(h) && third != HostGateway(h)
    ensures References(hosts, groups, login) >= 3
  {
    OneElement(HostsWith(hosts, login), h);
    OneElement(GatewaysWith(hosts, login), h);
    match third
    case HostLogin(k) => TwoElements(HostsWith(hosts, login), h, k);
    case HostGateway(k) => TwoElements(GatewaysWith(hosts, login), h, k);
    case GroupLogin(k) => OneElement(GroupsWith(groups, login), k);
  }

  /** A host's two logins applied and the host pointed at them: everybody else shows
      what they did. */
  lemma BothApplied(hosts: map<nat, Host>, groups: map<nat, Group>, h: nat,
                    l0: map<nat, Login>, s0: map<nat, Secret>, l1: map<nat, Login>, s1: map<nat, Secret>,
                    l2: map<nat, Login>, s2: map<nat, Secret>, a: Option<nat>, b: Option<nat>)
    requires OwnersHold(hosts, groups, l0)
    requires AppliedTo(hosts, groups, HostLogin(h), l0, s0, l1, s1, a)
    requires AppliedTo(hosts, groups, HostGateway(h), l1, s1, l2, s2, b)
    ensures var after := hosts[h := Host(false, a, b)];
            && OwnersHold(after, groups, l2)
            && ViewOf(l2, s2, a) == ViewOf(l1, s1, a)
            && (forall other :: other != HostLogin(h) && other != HostGateway(h) ==>
                  && PointsAt(after, groups, other) == PointsAt(hosts, groups, other)
                  && ViewOf(l2, s2, PointsAt(hosts, groups, other)) == ViewOf(l0, s0, PointsAt(hosts, groups, other)))
            && (a.Some? ==> a != b)
  {
    var after := hosts[h := Host(false, a, b)];
    forall other | other != HostLogin(h)
      ensures var theirs := PointsAt(hosts, groups, other);
              && ViewOf(l1, s1, theirs) == ViewOf(l0, s0, theirs)
              && (theirs.Some? ==> Live(l1, theirs.value) && a != theirs)
    {
      OthersAreUntouched(hosts, groups, HostLogin(h), l0, s0, l1, s1, a, other);
    }
    assert OwnersHold(hosts, groups, l1);
    forall other | other != HostLogin(h) && other != HostGateway(h)
      ensures PointsAt(after, groups, other) == PointsAt(hosts, groups, other)
      ensures var theirs := PointsAt(hosts, groups, other);
              && ViewOf(l2, s2, theirs) == ViewOf(l0, s0, theirs)
              && (theirs.Some? ==> Live(l2, theirs.value))
    {
      OthersAreUntouched(hosts, groups, HostGateway(h), l1, s1, l2, s2, b, other);
    }
    assert PointsAt(after, groups, HostLogin(h)) == a && PointsAt(after, groups, HostGateway(h)) == b;
  }

  /** Which logins are live once what nobody points at was let go. */
  ghost predicate LiveAfter(before: map<nat, Login>, after: map<nat, Login>, released: set<nat>,
                            hosts: map<nat, Host>, groups: map<nat, Group>) {
    forall id: nat :: Live(after, id) <==>
      Live(before, id) && (id in released ==> Owned(hosts, groups, id))
  }

  function Given(login: Option<nat>): set<nat> {
    if login.Some? then {login.value} else {}
  }

  /** What is let go: the login an owner gave up. */
  function Released(current: Option<nat>, identity: Option<nat>): set<nat> {
    if identity.None? && current.Some? then {current.value} else {}
  }

  /** When a login is left behind. */
  predicate Stranded(hosts: map<nat, Host>, groups: map<nat, Group>, h: nat, a: Option<nat>, b: Option<nat>) {
    var current := PointsAt(hosts, groups, HostLogin(h));
    && current.Some? && PointsAt(hosts, groups, HostGateway(h)) == current
    && a.Some? && b.Some? && References(hosts, groups, current.value) == 2
  }

  /** What applying both of a host's logins means for who owns what: other logins
      are live as before, and a login the host had but was not given again has
      other owners too, or is let go. */
  ghost predicate Leaves(hosts: map<nat, Host>, groups: map<nat, Group>, h: nat,
                         before: map<nat, Login>, after: map<nat, Login>, a: Option<nat>, b: Option<nat>) {
    && (forall id: nat :: Some(id) != a && Some(id) != b ==>
          && (Live(after, id) <==> Live(before, id))
          && (a.Some? && PointsAt(hosts, groups, HostLogin(h)) == Some(id) ==> References(hosts, groups, id) >= 2)
          && (b.Some? && PointsAt(hosts, groups, HostGateway(h)) == Some(id) ==> References(hosts, groups, id) >= 2))
    && (Stranded(hosts, groups, h, a, b) ==>
          PointsAt(hosts, groups, HostLogin(h)) != a && PointsAt(hosts, groups, HostLogin(h)) != b)
  }

  lemma BothLeave(hosts: map<nat, Host>, groups: map<nat, Group>, h: nat,
                  l0: map<nat, Login>, s0: map<nat, Secret>, l1: map<nat, Login>, s1: map<nat, Secret>,
                  l2: map<nat, Login>, s2: map<nat, Secret>, a: Option<nat>, b: Option<nat>)
    requires OwnersHold(hosts, groups, l0)
    requires AppliedTo(hosts, groups, HostLogin(h), l0, s0, l1, s1, a)
    requires AppliedTo(hosts, groups, HostGateway(h), l1, s1, l2, s2, b)
    ensures Leaves(hosts, groups, h, l0, l2, a, b)
  {
    hide AppliedTo, References;
    if Stranded(hosts, groups, h, a, b) {
      AppliedCopies(hosts, groups, HostLogin(h), l0, s0, l1, s1, a);
      AppliedCopies(hosts, groups, HostGateway(h), l1, s1, l2, s2, b);
    }
    forall id: nat | Some(id) != a && Some(id) != b
      ensures (Live(l2, id) <==> Live(l0, id))
      ensures a.Some? && PointsAt(hosts, groups, HostLogin(h)) == Some(id) ==> References(hosts, groups, id) >= 2
      ensures b.Some? && PointsAt(hosts, groups, HostGateway(h)) == Some(id) ==> References(hosts, groups, id) >= 2
    {
      AppliedMeans(hosts, groups, HostLogin(h), l0, s0, l1, s1, a, id);
      AppliedMeans(hosts, groups, HostGateway(h), l1, s1, l2, s2, b, id);
    }
  }

  /** So a login is left behind in one case exactly. */
  lemma LeavesMeans(hosts: map<nat, Host>, groups: map<nat, Group>, h: nat,
                    before: map<nat, Login>, applied: map<nat, Login>, a: Option<nat>, b: Option<nat>,
                    after: map<nat, Login>)
    requires NoOrphans(hosts, groups, before) && OwnersHold(hosts, groups, before)
    requires Leaves(hosts, groups, h, before, applied, a, b)
    requires LiveAfter(applied, after, Released(PointsAt(hosts, groups, HostLogin(h)), a)
                                       + Released(PointsAt(hosts, groups, HostGateway(h)), b),
                       hosts[h := Host(false, a, b)], groups)
    ensures NoOrphans(hosts[h := Host(false, a, b)], groups, after) <==> !Stranded(hosts, groups, h, a, b)
  {
    var pointed := hosts[h := Host(false, a, b)];
    assert PointsAt(pointed, groups, HostLogin(h)) == a && PointsAt(pointed, groups, HostGateway(h)) == b;
    assert forall other :: other != HostLogin(h) && other != HostGateway(h) ==>
      PointsAt(pointed, groups, other) == PointsAt(hosts, groups, other);
    if Stranded(hosts, groups, h, a, b) {
      var c := PointsAt(hosts, groups, HostLogin(h)).value;
      assert Live(after, c);
      forall owner
        ensures PointsAt(pointed, groups, owner) != Some(c)
      {
        if owner != HostLogin(h) && owner != HostGateway(h) && PointsAt(hosts, groups, owner) == Some(c) {
          ThreeOwnersCount(hosts, groups, c, h, owner);
        }
      }
    } else {
      forall id: nat | Live(after, id)
        ensures Owned(pointed, groups, id)
      {
        OwnedAfter(hosts, groups, h, before, applied, a, b, after, id);
      }
    }
  }

  lemma OwnedAfter(hosts: map<nat, Host>, groups: map<nat, Group>, h: nat,
                   before: map<nat, Login>, applied: map<nat, Login>, a: Option<nat>, b: Option<nat>,
                   after: map<nat, Login>, id: nat)
    requires NoOrphans(hosts, groups, before) && Leaves(hosts, groups, h, before, applied, a, b)
    requires LiveAfter(applied, after, Released(PointsAt(hosts, groups, HostLogin(h)), a)
                                       + Released(PointsAt(hosts, groups, HostGateway(h)), b),
                       hosts[h := Host(false, a, b)], groups)
    requires !Stranded(hosts, groups, h, a, b) && Live(after, id)
    ensures Owned(hosts[h := Host(false, a, b)], groups, id)
  {
    hide References;
    var pointed := hosts[h := Host(false, a, b)];
    assert PointsAt(pointed, groups, HostLogin(h)) == a && PointsAt(pointed, groups, HostGateway(h)) == b;
    if a != Some(id) && b != Some(id) {
      assert Live(before, id);
      var owner :| PointsAt(hosts, groups, owner) == Some(id);
      if owner != HostLogin(h) && owner != HostGateway(h) {
        assert PointsAt(pointed, groups, owner) == Some(id);
      } else if id !in Released(PointsAt(hosts, groups, HostLogin(h)), a)
                       + Released(PointsAt(hosts, groups, HostGateway(h)), b) {
        var other := StillOwned(hosts, groups, h, id, owner);
        assert PointsAt(pointed, groups, other) == Some(id);
      }
    }
  }

  lemma AppliedCopies(hosts: map<nat, Host>, groups: map<nat, Group>, owner: Owner,
                      logins: map<nat, Login>, secrets: map<nat, Secret>,
                      after: map<nat, Login>, afterSecrets: map<nat, Secret>, identity: Option<nat>)
    requires AppliedTo(hosts, groups, owner, logins, secrets, after, afterSecrets, identity)
    requires var current := PointsAt(hosts, groups, owner);
             current.Some? && References(hosts, groups, current.value) > 1 && Live(logins, current.value)
    ensures identity != PointsAt(hosts, groups, owner) && Live(after, PointsAt(hosts, groups, owner).value)
  {
  }

  lemma AppliedMeans(hosts: map<nat, Host>, groups: map<nat, Group>, owner: Owner,
                     logins: map<nat, Login>, secrets: map<nat, Secret>,
                     after: map<nat, Login>, afterSecrets: map<nat, Secret>, identity: Option<nat>, id: nat)
    requires AppliedTo(hosts, groups, owner, logins, secrets, after, afterSecrets, identity)
    ensures identity != Some(id) ==> (Live(after, id) <==> Live(logins, id))
    ensures identity.Some? && identity != Some(id) && PointsAt(hosts, groups, owner) == Some(id) ==>
              References(hosts, groups, id) >= 2
  {
  }

  lemma OwnerIsLive(hosts: map<nat, Host>, groups: map<nat, Group>, logins: map<nat, Login>, owner: Owner)
    requires OwnersHold(hosts, groups, logins)
    ensures PointsAt(hosts, groups, owner).Some? ==> Live(logins, PointsAt(hosts, groups, owner).value)
  {
  }

  lemma ReleasedTwice(a: map<nat, Login>, b: map<nat, Login>, c: map<nat, Login>, r: set<nat>, q: set<nat>,
                      hosts: map<nat, Host>, groups: map<nat, Group>)
    requires LiveAfter(a, b, r, hosts, groups) && LiveAfter(b, c, q, hosts, groups)
    ensures LiveAfter(a, c, r + q, hosts, groups)
  {
  }

  lemma ReleasedNothing(a: map<nat, Login>, hosts: map<nat, Host>, groups: map<nat, Group>)
    ensures LiveAfter(a, a, {}, hosts, groups)
  {
  }

  /** A login one of the host's two pointed at, and neither was changed in place nor
      let go: somebody else has it. */
  lemma StillOwned(hosts: map<nat, Host>, groups: map<nat, Group>, h: nat, id: nat, owner: Owner)
    returns (other: Owner)
    requires PointsAt(hosts, groups, owner) == Some(id) && (owner == HostLogin(h) || owner == HostGateway(h))
    requires References(hosts, groups, id) >= 2
    requires PointsAt(hosts, groups, HostLogin(h)) == PointsAt(hosts, groups, HostGateway(h)) ==>
               References(hosts, groups, id) >= 3
    ensures other != HostLogin(h) && other != HostGateway(h) && PointsAt(hosts, groups, other) == Some(id)
  {
    var hs, gs, qs := HostsWith(hosts, id), GatewaysWith(hosts, id), GroupsWith(groups, id);
    AtMostOne(hs, h);
    AtMostOne(gs, h);
    if hs - {h} != {} {
      var k :| k in hs - {h};
      other := HostLogin(k);
    } else if gs - {h} != {} {
      var k :| k in gs - {h};
      other := HostGateway(k);
    } else if qs != {} {
      var k :| k in qs;
      other := GroupLogin(k);
    } else {
      other := owner;
      assert false;
    }
  }

  lemma AtMostOne(s: set<nat>, x: nat)
    ensures s - {x} == {} ==> |s| <= 1 && (|s| == 1 ==> x in s)
  {
    if s - {x} == {} && s != {} { assert s == {x}; }
  }

  /** One owner points somewhere else. */
  ghost predicate Repointed(hosts: map<nat, Host>, groups: map<nat, Group>,
                            hosts1: map<nat, Host>, groups1: map<nat, Group>, owner: Owner, identity: Option<nat>) {
    forall other :: PointsAt(hosts1, groups1, other) == if other == owner then identity
                                                        else PointsAt(hosts, groups, other)
  }

  lemma OneApplied(hosts: map<nat, Host>, groups: map<nat, Group>, owner: Owner,
                   l0: map<nat, Login>, s0: map<nat, Secret>, l1: map<nat, Login>, s1: map<nat, Secret>,
                   a: Option<nat>, hosts1: map<nat, Host>, groups1: map<nat, Group>)
    requires OwnersHold(hosts, groups, l0)
    requires AppliedTo(hosts, groups, owner, l0, s0, l1, s1, a)
    requires Repointed(hosts, groups, hosts1, groups1, owner, a)
    ensures OwnersHold(hosts1, groups1, l1)
    ensures forall other :: other != owner ==>
              ViewOf(l1, s1, PointsAt(hosts1, groups1, other)) == ViewOf(l0, s0, PointsAt(hosts, groups, other))
  {
    forall other | other != owner
      ensures var theirs := PointsAt(hosts, groups, other);
              && ViewOf(l1, s1, theirs) == ViewOf(l0, s0, theirs)
              && (theirs.Some? ==> Live(l1, theirs.value))
    {
      OthersAreUntouched(hosts, groups, owner, l0, s0, l1, s1, a, other);
    }
    assert a.Some? ==> Live(l1, a.value);
  }

  /** An owner that gave up a login somebody else has: they still do. */
  lemma AnotherOwner(hosts: map<nat, Host>, groups: map<nat, Group>, owner: Owner, id: nat) returns (other: Owner)
    requires PointsAt(hosts, groups, owner) == Some(id) && References(hosts, groups, id) >= 2
    ensures other != owner && PointsAt(hosts, groups, other) == Some(id)
  {
    var hs, gs, qs := HostsWith(hosts, id), GatewaysWith(hosts, id), GroupsWith(groups, id);
    var h := if owner.HostLogin? then {owner.id} else {};
    var g := if owner.HostGateway? then {owner.id} else {};
    var q := if owner.GroupLogin? then {owner.id} else {};
    AtMostOne(hs, owner.id);
    AtMostOne(gs, owner.id);
    AtMostOne(qs, owner.id);
    if hs - h != {} {
      var k :| k in hs - h;
      other := HostLogin(k);
    } else if gs - g != {} {
      var k :| k in gs - g;
      other := HostGateway(k);
    } else if qs - q != {} {
      var k :| k in qs - q;
      other := GroupLogin(k);
    } else {
      other := owner;
      assert false;
    }
  }

  lemma OneOwnedAfter(hosts: map<nat, Host>, groups: map<nat, Group>, owner: Owner,
                      l0: map<nat, Login>, s0: map<nat, Secret>, l1: map<nat, Login>, s1: map<nat, Secret>,
                      a: Option<nat>, hosts1: map<nat, Host>, groups1: map<nat, Group>, l2: map<nat, Login>)
    requires NoOrphans(hosts, groups, l0)
    requires AppliedTo(hosts, groups, owner, l0, s0, l1, s1, a)
    requires Repointed(hosts, groups, hosts1, groups1, owner, a)
    requires LiveAfter(l1, l2, Released(PointsAt(hosts, groups, owner), a), hosts1, groups1)
    ensures NoOrphans(hosts1, groups1, l2)
  {
    hide AppliedTo, References;
    forall id: nat | Live(l2, id)
      ensures Owned(hosts1, groups1, id)
    {
      AppliedMeans(hosts, groups, owner, l0, s0, l1, s1, a, id);
      if a == Some(id) {
        assert PointsAt(hosts1, groups1, owner) == Some(id);
      } else if id !in Released(PointsAt(hosts, groups, owner), a) {
        var was :| PointsAt(hosts, groups, was) == Some(id);
        if was == owner {
          var other := AnotherOwner(hosts, groups, owner, id);
          assert PointsAt(hosts1, groups1, other) == Some(id);
        } else {
          assert PointsAt(hosts1, groups1, was) == Some(id);
        }
      }
    }
  }

  class Tables {
    var hosts: map<nat, Host>
    var groups: map<nat, Group>
    var logins: map<nat, Login>
    var secrets: map<nat, Secret>
    /** Ids are never used twice. */
    var next: nat

    ghost predicate IdsAreNew()
      reads this
    {
      && (forall id :: id in hosts || id in groups || id in logins || id in secrets ==> id < next)
    }

    ghost predicate Valid()
      reads this
    {
      IdsAreNew() && OwnersHold(hosts, groups, logins) && SecretsHold(logins, secrets)
    }

    ghost function LoginOf(owner: Owner): Option<View>
      reads this
    {
      ViewOf(logins, secrets, PointsAt(hosts, groups, owner))
    }

    constructor ()
      ensures Valid() && hosts == map[] && groups == map[] && logins == map[] && secrets == map[]
      ensures NoStrays(logins, secrets)
    {
      hosts, groups, logins, secrets, next := map[], map[], map[], map[], 0;
    }

    // ----- The login core -----

    method SealSecret(text: string) returns (id: nat)
      requires IdsAreNew()
      modifies this`secrets, this`next
      ensures IdsAreNew() && id == old(next) && secrets == old(secrets)[id := Secret(false, text)]
    {
      id := next;
      secrets := secrets[id := Secret(false, text)];
      next := next + 1;
    }

    /** Forget a password once no login uses it any more. */
    method ReleaseSecret(id: nat)
      modifies this`secrets
      ensures secrets.Keys == old(secrets).Keys
      ensures forall other :: other in secrets && other != id ==> secrets[other] == old(secrets)[other]
      ensures (exists l :: Live(logins, l) && logins[l].secret == Some(id)) ==> secrets == old(secrets)
      ensures (forall l :: Live(logins, l) ==> logins[l].secret != Some(id)) && id in secrets ==>
                secrets[id] == if old(secrets)[id].deleted then old(secrets)[id] else Secret(true, "")
    {
      var used := exists l :: l in logins && !logins[l].deleted && logins[l].secret == Some(id);
      if !used && id in secrets && !secrets[id].deleted {
        secrets := secrets[id := Secret(true, "")];
      }
    }

    /** The secret the login is to have: the old one, a new one, or none. */
    method PickSecret(before: Option<nat>, change: PasswordChange, unlocked: bool)
      returns (r: Result<Option<nat>, Error>)
      requires IdsAreNew() && SecretsHold(logins, secrets)
      requires before.Some? ==> before.value in secrets && !secrets[before.value].deleted
      modifies this`secrets, this`next
      ensures IdsAreNew() && SecretsHold(logins, secrets) && old(next) <= next
      ensures r.Err? <==> change.Set? && !unlocked
      ensures r.Err? ==> r.error == VaultLocked
      ensures r.Err? ==> secrets == old(secrets) && next == old(next)
      ensures r.Ok? && r.value.Some? ==> r.value.value in secrets && !secrets[r.value.value].deleted
      ensures r.Ok? ==> TextOf(r.value, secrets) ==
                        match change
                        case Keep => TextOf(before, old(secrets))
                        case Set(value) => Some(value)
                        case Forget => None
      ensures r.Ok? && !change.Keep? && before.Some? ==> r.value != before
      ensures r.Ok? && change.Keep? ==> r.value == before
      ensures forall id :: id in old(secrets) ==> id in secrets && secrets[id] == old(secrets)[id]
      ensures r.Ok? ==> forall id :: id in secrets && id !in old(secrets) ==> r.value == Some(id)
    {
      match change {
        case Keep =>
          return Ok(before);
        case Set(value) =>
          if !unlocked {
            return Err(VaultLocked);
          }
          var id := SealSecret(value);
          return Ok(Some(id));
        case Forget =>
          return Ok(None);
      }
    }

    /** Apply a form to an owner's login. The owner still points where it did. The
        login it is to point at says what was asked for; no other login changes. A
        login somebody else points at as well is not changed but copied. */
    method ApplyLogin(current: Option<nat>, change: LoginChange, unlocked: bool, ghost owner: Owner)
      returns (r: Result<Applied, Error>)
      requires IdsAreNew() && SecretsHold(logins, secrets)
      requires current == PointsAt(hosts, groups, owner)
      requires current.Some? ==> Live(logins, current.value)
      modifies this`logins, this`secrets, this`next
      ensures IdsAreNew() && SecretsHold(logins, secrets) && old(next) <= next
      ensures r.Err? ==> logins == old(logins) && secrets == old(secrets)
      ensures r.Ok? ==>
                && (if change.username == "" then r.value == Applied(None, current)
                    else r.value.identity.Some? && r.value.release.None?)
                && AppliedTo(hosts, groups, owner, old(logins), old(secrets), logins, secrets, r.value.identity)
                && ViewOf(logins, secrets, r.value.identity) ==
                   Asked(change, ViewOf(old(logins), old(secrets), current))
      ensures r.Ok? && change.username != "" ==>
                var login := logins[r.value.identity.value];
                && login.username == change.username && login.domain == change.domain
                && PasswordOf(login, secrets) ==
                   match change.password
                   case Keep => (if current.None? then None
                                 else PasswordOf(old(logins)[current.value], old(secrets)))
                   case Set(value) => Some(value)
                   case Forget => None
      ensures r.Err? <==> Refused(change, unlocked)
      ensures r.Err? <==>
                change.password.Set? && (change.password.value == "" || change.username == "" || !unlocked)
      ensures r.Err? ==> r.error == Refusal(change)
      ensures r.Err? ==>
                r.error == if change.password.value == "" then PasswordRequired
                           else if change.username == "" then UsernameRequired
                           else VaultLocked
      ensures old(NoStrays(logins, secrets)) ==> NoStrays(logins, secrets)
    {
      hide References, ViewOf, TextOf, AppliedTo, NoStrays, NoStraysBut;
      if change.password.Set? {
        if change.password.value == "" {
          return Err(PasswordRequired);
        }
        if change.username == "" {
          return Err(UsernameRequired);
        }
      }
      if change.username == "" {
        ShownPassword(logins, secrets, None);
        NothingApplied(hosts, groups, owner, logins, secrets);
        return Ok(Applied(None, current));
      }
      ShownPassword(logins, secrets, current);
      var changed := ChangeLogin(current, change, unlocked, owner);
      if changed.Err? {
        return Err(changed.error);
      }
      AppliedIsLive(hosts, groups, owner, old(logins), old(secrets), logins, secrets, changed.value);
      ShownPassword(logins, secrets, Some(changed.value));
      return Ok(Applied(Some(changed.value), None));
    }

    /** A form with a username: the login it is for says what was asked for. */
    method ChangeLogin(current: Option<nat>, change: LoginChange, unlocked: bool, ghost owner: Owner)
      returns (r: Result<nat, Error>)
      requires IdsAreNew() && SecretsHold(logins, secrets) && change.username != ""
      requires current == PointsAt(hosts, groups, owner)
      requires current.Some? ==> Live(logins, current.value)
      modifies this`logins, this`secrets, this`next
      ensures IdsAreNew() && SecretsHold(logins, secrets) && old(next) <= next
      ensures r.Err? <==> change.password.Set? && !unlocked
      ensures r.Err? ==> r.error == VaultLocked && logins == old(logins) && secrets == old(secrets)
      ensures r.Ok? ==>
                && AppliedTo(hosts, groups, owner, old(logins), old(secrets), logins, secrets, Some(r.value))
                && ViewOf(logins, secrets, Some(r.value)) == Asked(change, ViewOf(old(logins), old(secrets), current))
      ensures old(NoStrays(logins, secrets)) ==> NoStrays(logins, secrets)
    {
      hide References, ViewOf, TextOf, AppliedTo, NoStrays, NoStraysBut;
      var oldSecret := if current.Some? then logins[current.value].secret else None;
      ShownPassword(logins, secrets, current);
      var secret := PickSecret(oldSecret, change.password, unlocked);
      if secret.Err? {
        return Err(secret.error);
      }
      ghost var mid := secrets;
      if NoStrays(logins, old(secrets)) { OnlyNewIsSpared(logins, old(secrets), mid, secret.value); }
      var id := StoreLogin(current, Login(false, change.username, change.domain, secret.value),
                           if change.password.Keep? || oldSecret == secret.value then None else oldSecret, owner);
      MoreSecretsTouchNothing(hosts, groups, owner, old(logins), old(secrets), mid, logins, secrets, Some(id));
      return Ok(id);
    }

    /** In place if nobody else points there, as a copy if somebody does. */
    method StoreLogin(current: Option<nat>, login: Login, replaced: Option<nat>, ghost owner: Owner) returns (id: nat)
      requires IdsAreNew() && SecretsHold(logins, secrets)
      requires current == PointsAt(hosts, groups, owner) && (current.Some? ==> Live(logins, current.value))
      requires !login.deleted
      requires login.secret.Some? ==> login.secret.value in secrets && !secrets[login.secret.value].deleted
      requires login.secret != replaced || replaced.None?
      modifies this`logins, this`secrets, this`next
      ensures IdsAreNew() && SecretsHold(logins, secrets) && old(next) <= next
      ensures AppliedTo(hosts, groups, owner, old(logins), old(secrets), logins, secrets, Some(id))
      ensures ViewOf(logins, secrets, Some(id)) ==
              Some(View(login.username, login.domain, TextOf(login.secret, old(secrets))))
      ensures old(NoStraysBut(logins, secrets, Given(login.secret))) ==>
                (current.Some? ==> KeepsOrReplaces(old(logins), current.value, login.secret, replaced)) ==>
                NoStrays(logins, secrets)
    {
      hide References, OnlyTouches, ViewOf, TextOf, NoStraysBut, NoStrays;
      var isShared := current.Some? && References(hosts, groups, current.value) > 1;
      if current.Some? && !isShared {
        id := current.value;
      } else {
        id := next;
        next := next + 1;
      }
      PutLogin(id, login, replaced);
    }

    static lemma NothingApplied(hosts: map<nat, Host>, groups: map<nat, Group>, owner: Owner,
                                logins: map<nat, Login>, secrets: map<nat, Secret>)
      ensures AppliedTo(hosts, groups, owner, logins, secrets, logins, secrets, None)
    {
    }

    static lemma AppliedIsLive(hosts: map<nat, Host>, groups: map<nat, Group>, owner: Owner,
                               logins: map<nat, Login>, secrets: map<nat, Secret>,
                               after: map<nat, Login>, afterSecrets: map<nat, Secret>, id: nat)
      requires AppliedTo(hosts, groups, owner, logins, secrets, after, afterSecrets, Some(id))
      ensures Live(after, id)
    {
    }

    static lemma ShownPassword(logins: map<nat, Login>, secrets: map<nat, Secret>, current: Option<nat>)
      requires current.Some? ==> Live(logins, current.value)
      ensures current.Some? ==>
                var login := logins[current.value];
                ViewOf(logins, secrets, current) ==
                Some(View(login.username, login.domain, TextOf(login.secret, secrets)))
      ensures current.None? ==> ViewOf(logins, secrets, current) == None && TextOf(None, secrets) == None
    {
    }

    static lemma MoreSecretsTouchNothing(hosts: map<nat, Host>, groups: map<nat, Group>, owner: Owner,
                                         logins: map<nat, Login>, secrets: map<nat, Secret>, mid: map<nat, Secret>,
                                         after: map<nat, Login>, afterSecrets: map<nat, Secret>, id: Option<nat>)
      requires SecretsHold(logins, secrets) && id.Some?
      requires AppliedTo(hosts, groups, owner, logins, mid, after, afterSecrets, id)
      requires forall s :: s in secrets ==> s in mid && mid[s] == secrets[s]
      ensures AppliedTo(hosts, groups, owner, logins, secrets, after, afterSecrets, id)
    {
      hide References;
      forall other | Live(logins, other)
        ensures ViewOf(logins, mid, Some(other)) == ViewOf(logins, secrets, Some(other))
      {
      }
    }

    /** Write a login, and let the password it no longer has go. */
    method PutLogin(id: nat, login: Login, replaced: Option<nat>)
      requires IdsAreNew() && SecretsHold(logins, secrets) && id < next && !login.deleted
      requires login.secret.Some? ==> login.secret.value in secrets && !secrets[login.secret.value].deleted
      requires login.secret != replaced || replaced.None?
      modifies this`logins, this`secrets
      ensures IdsAreNew() && SecretsHold(logins, secrets)
      ensures logins == old(logins)[id := login]
      ensures Live(logins, id)
      ensures ViewOf(logins, secrets, Some(id)) ==
              Some(View(login.username, login.domain, TextOf(login.secret, old(secrets))))
      ensures OnlyTouches(old(logins), old(secrets), logins, secrets, id)
      ensures old(NoStraysBut(logins, secrets, Given(login.secret))) ==>
                KeepsOrReplaces(old(logins), id, login.secret, replaced) ==> NoStrays(logins, secrets)
    {
      hide NoStraysBut, NoStrays, KeepsOrReplaces;
      ghost var before, was := logins, secrets;
      logins := logins[id := login];
      if replaced.Some? {
        ReleaseSecret(replaced.value);
      }
      if NoStraysBut(before, was, Given(login.secret)) && KeepsOrReplaces(before, id, login.secret, replaced) {
        WrittenOver(before, was, id, login, replaced, secrets);
      }
    }

    /** Tombstone a login nothing points at any more, and its password with it. */
    method ReleaseLogin(id: nat)
      requires IdsAreNew() && SecretsHold(logins, secrets)
      modifies this`logins, this`secrets
      ensures IdsAreNew() && SecretsHold(logins, secrets)
      ensures OnlyTouches(old(logins), old(secrets), logins, secrets, id)
      ensures (exists owner :: PointsAt(hosts, groups, owner) == Some(id)) ==>
                logins == old(logins) && secrets == old(secrets)
      ensures LiveAfter(old(logins), logins, {id}, hosts, groups)
      ensures OwnersHold(hosts, groups, old(logins)) ==> OwnersHold(hosts, groups, logins)
      ensures forall owner :: LoginOf(owner) == old(LoginOf(owner))
      ensures old(NoStrays(logins, secrets)) ==> NoStrays(logins, secrets)
    {
      hide NoStrays, References;
      NoOwners(hosts, groups, id);
      if References(hosts, groups, id) > 0 {
        return;
      }
      if id in logins && !logins[id].deleted {
        var secret := logins[id].secret;
        logins := logins[id := logins[id].(deleted := true)];
        if secret.Some? {
          ReleaseSecret(secret.value);
        }
        NoLongerUsed(old(logins), old(secrets), id, secrets);
      }
    }

    static lemma NoLongerUsed(logins: map<nat, Login>, secrets: map<nat, Secret>, id: nat,
                              afterSecrets: map<nat, Secret>)
      requires Live(logins, id) && afterSecrets.Keys == secrets.Keys
      requires forall s :: s in secrets && Some(s) != logins[id].secret ==> afterSecrets[s] == secrets[s]
      requires var secret, after := logins[id].secret, logins[id := logins[id].(deleted := true)];
               secret.Some? && secret.value in afterSecrets && !afterSecrets[secret.value].deleted ==>
                 InUse(after, secret.value)
      ensures NoStrays(logins, secrets) ==> NoStrays(logins[id := logins[id].(deleted := true)], afterSecrets)
    {
      var after := logins[id := logins[id].(deleted := true)];
      if NoStrays(logins, secrets) {
        forall s: nat | s in afterSecrets && !afterSecrets[s].deleted
          ensures exists l: nat :: Live(after, l) && after[l].secret == Some(s)
        {
          if Some(s) != logins[id].secret {
            var l :| Live(logins, l) && logins[l].secret == Some(s);
            assert l != id && after[l] == logins[l] && Live(after, l);
          }
        }
      }
    }

    // ----- What calls it -----

    /** A login that would be left behind: the host's own login and its gateway's are
        one, nobody else's, and both are kept. Each then gets a copy, and nothing
        lets the original go. */
    predicate LeavesOrphan(id: Option<nat>, login: LoginChange, gateway: LoginChange)
      reads this
    {
      && id.Some? && id.value in hosts
      && hosts[id.value].login.Some? && hosts[id.value].gateway == hosts[id.value].login
      && login.username != "" && gateway.username != ""
      && References(hosts, groups, hosts[id.value].login.value) == 2
    }

    /** Save a host. It shows what was asked for, every other owner shows what it
        did, and every login is still somebody's, but for the one case above. */
    method SaveHost(id: Option<nat>, login: LoginChange, gateway: LoginChange, unlocked: bool)
      returns (r: Result<nat, Error>)
      requires Valid()
      modifies this
      ensures Valid()
      ensures r.Err? ==> hosts == old(hosts) && logins == old(logins) && secrets == old(secrets)
      ensures groups == old(groups)
      ensures r.Err? <==>
                || Refused(login, unlocked) || Refused(gateway, unlocked)
                || (id.Some? && !(id.value in old(hosts) && !old(hosts)[id.value].deleted))
      ensures r.Err? ==>
                r.error == if (login.password.Set? || gateway.password.Set?) && !unlocked then VaultLocked
                           else if id.Some? && !(id.value in old(hosts) && !old(hosts)[id.value].deleted) then
                             UnknownHost
                           else Refusal(if Refused(login, unlocked) then login else gateway)
      ensures r.Ok? ==>
                && (if id.Some? then r.value == id.value else r.value !in old(hosts))
                && r.value in hosts && !hosts[r.value].deleted
                && LoginOf(HostLogin(r.value)) == Asked(login, old(LoginOf(HostLogin(r.value))))
                && LoginOf(HostGateway(r.value)) == Asked(gateway, old(LoginOf(HostGateway(r.value))))
                && (forall owner :: owner != HostLogin(r.value) && owner != HostGateway(r.value) ==>
                      LoginOf(owner) == old(LoginOf(owner)))
                && (old(NoOrphans(hosts, groups, logins)) ==>
                      (NoOrphans(hosts, groups, logins) <==> !old(LeavesOrphan(id, login, gateway))))
      ensures old(NoStrays(logins, secrets)) ==> NoStrays(logins, secrets)
    {
      hide OwnersHold, NoOrphans, LiveAfter, References, SecretsHold, Leaves, NoStrays;
      if (login.password.Set? || gateway.password.Set?) && !unlocked {
        return Err(VaultLocked);
      }
      var current := Host(false, None, None);
      var h := if id.Some? then id.value else next;
      if id.Some? {
        if id.value !in hosts || hosts[id.value].deleted {
          return Err(UnknownHost);
        }
        current := hosts[id.value];
      } else {
        next := next + 1;
      }
      ghost var before, beforeLogins, beforeSecrets := hosts, logins, secrets;
      var both := ApplyBoth(h, current, login, gateway, unlocked);
      if both.Err? {
        return Err(both.error);
      }
      var own, gate := both.value.own, both.value.gate;
      ghost var applied := logins;
      hosts := hosts[h := Host(false, own.identity, gate.identity)];
      LetGo(own.release, gate.release);
      if NoOrphans(before, groups, beforeLogins) {
        LeavesMeans(before, groups, h, beforeLogins, applied, own.identity, gate.identity, logins);
      }
      return Ok(h);
    }

    /** Both of a host's logins, or nothing. */
    method ApplyBoth(h: nat, current: Host, login: LoginChange, gateway: LoginChange, unlocked: bool)
      returns (r: Result<Both, Error>)
      requires Valid()
      requires current.login == PointsAt(hosts, groups, HostLogin(h))
      requires current.gateway == PointsAt(hosts, groups, HostGateway(h))
      modifies this`logins, this`secrets, this`next
      ensures IdsAreNew() && SecretsHold(logins, secrets) && old(next) <= next
      ensures r.Err? <==> Refused(login, unlocked) || Refused(gateway, unlocked)
      ensures r.Err? ==> r.error == Refusal(if Refused(login, unlocked) then login else gateway)
      ensures r.Err? ==> logins == old(logins) && secrets == old(secrets)
      ensures r.Ok? ==>
                var a, b := r.value.own.identity, r.value.gate.identity;
                var after := hosts[h := Host(false, a, b)];
                && r.value.own.release == (if login.username == "" then current.login else None)
                && r.value.gate.release == (if gateway.username == "" then current.gateway else None)
                && (a.Some? <==> login.username != "") && (b.Some? <==> gateway.username != "")
                && OwnersHold(after, groups, logins)
                && ViewOf(logins, secrets, a) == Asked(login, ViewOf(old(logins), old(secrets), current.login))
                && ViewOf(logins, secrets, b) == Asked(gateway, ViewOf(old(logins), old(secrets), current.gateway))
                && (forall other :: other != HostLogin(h) && other != HostGateway(h) ==>
                      PointsAt(after, groups, other) == PointsAt(hosts, groups, other)
                      && ViewOf(logins, secrets, PointsAt(after, groups, other)) == old(LoginOf(other)))
                && Leaves(hosts, groups, h, old(logins), logins, a, b)
      ensures old(NoStrays(logins, secrets)) ==> NoStrays(logins, secrets)
    {
      hide AppliedTo, OwnersHold, References, SecretsHold, OnlyTouches, NoStrays;
      OwnerIsLive(hosts, groups, logins, HostLogin(h));
      var l0, s0 := logins, secrets;
      var own := ApplyLogin(current.login, login, unlocked, HostLogin(h));
      if own.Err? {
        return Err(own.error);
      }
      ghost var l1, s1 := logins, secrets;
      OthersAreUntouched(hosts, groups, HostLogin(h), l0, s0, l1, s1, own.value.identity, HostGateway(h));
      var gate := ApplyLogin(current.gateway, gateway, unlocked, HostGateway(h));
      if gate.Err? {
        logins, secrets := l0, s0;
        return Err(gate.error);
      }
      BothApplied(hosts, groups, h, l0, s0, l1, s1, logins, secrets, own.value.identity, gate.value.identity);
      BothLeave(hosts, groups, h, l0, s0, l1, s1, logins, secrets, own.value.identity, gate.value.identity);
      return Ok(Both(own.value, gate.value));
    }

    method LetGo(own: Option<nat>, gate: Option<nat>)
      requires Valid()
      modifies this`logins, this`secrets
      ensures Valid()
      ensures forall owner :: LoginOf(owner) == old(LoginOf(owner))
      ensures LiveAfter(old(logins), logins, Given(own) + Given(gate), hosts, groups)
      ensures old(NoStrays(logins, secrets)) ==> NoStrays(logins, secrets)
    {
      hide OnlyTouches, References, NoStrays;
      ghost var before := logins;
      ReleasedNothing(logins, hosts, groups);
      if own.Some? {
        ReleaseLogin(own.value);
      }
      ghost var between := logins;
      ReleasedNothing(logins, hosts, groups);
      if gate.Some? {
        ReleaseLogin(gate.value);
      }
      ReleasedTwice(before, between, logins, Given(own), Given(gate), hosts, groups);
    }
 
    /** Delete a host: its logins go with it, unless somebody else has them. */
    method DeleteHost(id: nat) returns (r: Result<nat, Error>)
      requires Valid()
      modifies this`hosts, this`logins, this`secrets
      ensures Valid()
      ensures r.Ok? <==> id in old(hosts) && !old(hosts)[id].deleted
      ensures r.Err? ==> hosts == old(hosts) && logins == old(logins) && secrets == old(secrets)
      ensures r.Ok? ==>
                && hosts == old(hosts)[id := old(hosts)[id].(deleted := true)]
                && LoginOf(HostLogin(id)) == None && LoginOf(HostGateway(id)) == None
                && (forall owner :: owner != HostLogin(id) && owner != HostGateway(id) ==>
                      LoginOf(owner) == old(LoginOf(owner)))
                && (old(NoOrphans(hosts, groups, logins)) ==> NoOrphans(hosts, groups, logins))
      ensures old(NoStrays(logins, secrets)) ==> NoStrays(logins, secrets)
    {
      hide OnlyTouches, References, SecretsHold, NoStrays;
      if id !in hosts || hosts[id].deleted {
        return Err(UnknownHost);
      }
      var host := hosts[id];
      ghost var before := logins;
      hosts := hosts[id := host.(deleted := true)];
      assert forall other :: other != HostLogin(id) && other != HostGateway(id) ==>
        PointsAt(hosts, groups, other) == PointsAt(old(hosts), groups, other);
      LetGo(host.login, host.gateway);
      if NoOrphans(old(hosts), groups, before) {
        DeletedIsOwned(old(hosts), groups, id, before, logins);
      }
      return Ok(id);
    }

    static lemma DeletedIsOwned(hosts: map<nat, Host>, groups: map<nat, Group>, h: nat,
                                before: map<nat, Login>, after: map<nat, Login>)
      requires h in hosts && !hosts[h].deleted && NoOrphans(hosts, groups, before)
      requires LiveAfter(before, after, Given(hosts[h].login) + Given(hosts[h].gateway),
                         hosts[h := hosts[h].(deleted := true)], groups)
      ensures NoOrphans(hosts[h := hosts[h].(deleted := true)], groups, after)
    {
      var left := hosts[h := hosts[h].(deleted := true)];
      forall id: nat | Live(after, id)
        ensures Owned(left, groups, id)
      {
        if id !in Given(hosts[h].login) + Given(hosts[h].gateway) {
          var owner :| PointsAt(hosts, groups, owner) == Some(id);
          assert PointsAt(left, groups, owner) == Some(id);
        }
      }
    }

    /** Give a host a login of its own after the connect dialog asked for one. */
    method SetHostLogin(id: nat, username: string, domain: string, password: Option<string>, unlocked: bool)
      returns (r: Result<nat, Error>)
      requires Valid()
      modifies this
      ensures Valid() && groups == old(groups)
      ensures r.Err? ==> hosts == old(hosts) && logins == old(logins) && secrets == old(secrets)
      ensures var change := LoginChange(username, domain, if password.Some? then Set(password.value) else Keep);
              var known := id in old(hosts) && !old(hosts)[id].deleted;
              && (r.Err? <==> Refused(change, unlocked) || !known)
              && (r.Err? ==> r.error == RefusalOf(change, unlocked, known, UnknownHost))
      ensures r.Ok? ==>
                var change := LoginChange(username, domain, if password.Some? then Set(password.value) else Keep);
                && LoginOf(HostLogin(id)) == Asked(change, old(LoginOf(HostLogin(id))))
                && (forall owner :: owner != HostLogin(id) ==> LoginOf(owner) == old(LoginOf(owner)))
                && (old(NoOrphans(hosts, groups, logins)) ==> NoOrphans(hosts, groups, logins))
      ensures old(NoStrays(logins, secrets)) ==> NoStrays(logins, secrets)
    {
      hide OnlyTouches, References, SecretsHold, AppliedTo, LiveAfter, NoOrphans, OwnersHold, NoStrays;
      var change := LoginChange(username, domain, if password.Some? then Set(password.value) else Keep);
      if change.password.Set? && !unlocked {
        return Err(VaultLocked);
      }
      if id !in hosts || hosts[id].deleted {
        return Err(UnknownHost);
      }
      var current := hosts[id].login;
      ghost var h0, l0, s0 := hosts, logins, secrets;
      OwnerIsLive(hosts, groups, logins, HostLogin(id));
      var login := ApplyLogin(current, change, unlocked, HostLogin(id));
      if login.Err? {
        return Err(login.error);
      }
      ghost var l1, s1 := logins, secrets;
      hosts := hosts[id := hosts[id].(login := login.value.identity)];
      assert Repointed(h0, groups, hosts, groups, HostLogin(id), login.value.identity);
      OneApplied(h0, groups, HostLogin(id), l0, s0, l1, s1, login.value.identity, hosts, groups);
      ReleasedNothing(logins, hosts, groups);
      if login.value.release.Some? {
        ReleaseLogin(login.value.release.value);
      }
      if NoOrphans(h0, groups, l0) {
        OneOwnedAfter(h0, groups, HostLogin(id), l0, s0, l1, s1, login.value.identity, hosts, groups, logins);
      }
      return Ok(id);
    }

    /** Set the login a group hands to its hosts, or drop it. */
    method SetGroupLogin(id: nat, change: LoginChange, unlocked: bool) returns (r: Result<nat, Error>)
      requires Valid()
      modifies this
      ensures Valid() && hosts == old(hosts)
      ensures r.Err? ==> groups == old(groups) && logins == old(logins) && secrets == old(secrets)
      ensures var known := id in old(groups) && !old(groups)[id].deleted;
              && (r.Err? <==> Refused(change, unlocked) || !known)
              && (r.Err? ==> r.error == RefusalOf(change, unlocked, known, UnknownGroup))
      ensures r.Ok? ==>
                && LoginOf(GroupLogin(id)) == Asked(change, old(LoginOf(GroupLogin(id))))
                && (forall owner :: owner != GroupLogin(id) ==> LoginOf(owner) == old(LoginOf(owner)))
                && (old(NoOrphans(hosts, groups, logins)) ==> NoOrphans(hosts, groups, logins))
      ensures old(NoStrays(logins, secrets)) ==> NoStrays(logins, secrets)
    {
      hide OnlyTouches, References, SecretsHold, AppliedTo, LiveAfter, NoOrphans, OwnersHold, NoStrays;
      if change.password.Set? && !unlocked {
        return Err(VaultLocked);
      }
      if id !in groups || groups[id].deleted {
        return Err(UnknownGroup);
      }
      var current := groups[id].login;
      ghost var g0, l0, s0 := groups, logins, secrets;
      OwnerIsLive(hosts, groups, logins, GroupLogin(id));
      var login := ApplyLogin(current, change, unlocked, GroupLogin(id));
      if login.Err? {
        return Err(login.error);
      }
      ghost var l1, s1 := logins, secrets;
      groups := groups[id := groups[id].(login := login.value.identity)];
      assert Repointed(hosts, g0, hosts, groups, GroupLogin(id), login.value.identity);
      OneApplied(hosts, g0, GroupLogin(id), l0, s0, l1, s1, login.value.identity, hosts, groups);
      ReleasedNothing(logins, hosts, groups);
      if login.value.release.Some? {
        ReleaseLogin(login.value.release.value);
      }
      if NoOrphans(hosts, g0, l0) {
        OneOwnedAfter(hosts, g0, GroupLogin(id), l0, s0, l1, s1, login.value.identity, hosts, groups, logins);
      }
      return Ok(id);
    }
  }
}
