// Expiring invites of a sidechannel node: who may send on an invite-required channel.

module Invites {

  import opened Prelude
  import opened JsText

  // Channels are trimmed and keys lower-cased. A missing time is one that is not a finite number;
  // signed says that the signature is the inviter's, over the canonical text of the other fields.
  datatype Invite = Invite(channel: string, invitee: string, inviter: string, issuedAt: Option<int>, expiresAt: Option<int>, signed: bool)

  datatype Config = Config(selfKey: string, entryChannel: string, inviteRequired: bool, inviterKeys: set<string>,
                           channels: Option<set<string>>, prefixes: Option<seq<string>>)

  datatype State = State(inviterKeys: Option<set<string>>, invited: map<string, map<string, int>>, local: map<string, int>)

  function AnyPrefix(prefixes: seq<string>, channel: string): bool {
    prefixes != [] && ((prefixes[0] != "" && prefixes[0] <= channel) || AnyPrefix(prefixes[1..], channel))
  }

  predicate Required(cfg: Config, channel: string) {
    && !(channel != "" && cfg.entryChannel != "" && channel == cfg.entryChannel)
    && cfg.inviteRequired
    && ((cfg.channels.None? && cfg.prefixes.None?)
        || (cfg.channels.Some? && channel in cfg.channels.value)
        || (cfg.prefixes.Some? && AnyPrefix(cfg.prefixes.value, channel)))
  }

  // An invite-requiring node always counts itself among the inviters; an empty key is no key.
  function Fresh(cfg: Config): State {
    var named := cfg.inviterKeys - {""};
    var keys := if cfg.inviteRequired && cfg.selfKey != "" then named + {cfg.selfKey} else named;
    State(if keys == {} then None else Some(keys), map[], map[])
  }

  predicate IsInviter(s: State, key: string) {
    s.inviterKeys.Some? && key in s.inviterKeys.value
  }

  predicate Verifies(s: State, inv: Invite, channel: string, invitee: string, needTrusted: bool, now: int) {
    && inv.channel == channel && inv.invitee == invitee && inv.inviter != ""
    && (needTrusted && s.inviterKeys.Some? ==> inv.inviter in s.inviterKeys.value)
    && inv.issuedAt.Some? && inv.expiresAt.Some? && inv.expiresAt.value > now && inv.signed
  }

  function Recorded(s: State, channel: string, key: string): Option<int> {
    if channel in s.invited && key in s.invited[channel] then Some(s.invited[channel][key]) else None
  }

  predicate IsInvited(s: State, channel: string, key: string, now: int) {
    Recorded(s, channel, key).Some? && Recorded(s, channel, key).value > now
  }

  predicate IsLocallyInvited(s: State, channel: string, now: int) {
    channel in s.local && s.local[channel] > now
  }

  // An expired record is deleted when it is looked up.
  function DropExpired(s: State, channel: string, key: string, now: int): State {
    if Recorded(s, channel, key).Some? && !IsInvited(s, channel, key, now) then
      s.(invited := s.invited[channel := s.invited[channel] - {key}])
    else s
  }

  function DropExpiredLocal(s: State, channel: string, now: int): State {
    if channel in s.local && !IsLocallyInvited(s, channel, now) then s.(local := s.local - {channel}) else s
  }

  function Record(s: State, channel: string, key: string, expiresAt: int): State {
    var m := if channel in s.invited then s.invited[channel] else map[];
    s.(invited := s.invited[channel := m[key := expiresAt]])
  }

  datatype Step =
    | Message(channel: string, remote: string, invite: Option<Invite>)
    | OpenRequest(target: string, remote: string, invite: Option<Invite>)
    | AcceptLocal(own: Invite, channel: string)
    | Authorize(channel: string, remote: string)
    | AddInviter(key: string)
    | RemoveChannel(channel: string, registered: bool)

  // A remote's own invite: remembered when it verifies.
  function VerifyRemote(s: State, inv: Option<Invite>, channel: string, remote: string, now: int): (State, bool) {
    if inv.Some? && Verifies(s, inv.value, channel, remote, true, now) then
      (Record(s, channel, remote, inv.value.expiresAt.value), true)
    else (s, false)
  }

  function CheckInvite(cfg: Config, s: State, channel: string, remote: string, inv: Option<Invite>, now: int): (State, bool) {
    if !Required(cfg, channel) then (s, true)
    else
      var selfIsInviter := cfg.selfKey != "" && IsInviter(s, cfg.selfKey);
      var s1 := if selfIsInviter then s else DropExpiredLocal(s, channel, now);
      if !selfIsInviter && !IsLocallyInvited(s, channel, now) then (s1, false)
      else if IsInviter(s, remote) then (s1, true)
      else if IsInvited(s, channel, remote, now) then (s1, true)
      else VerifyRemote(DropExpired(s1, channel, remote, now), inv, channel, remote, now)
  }

  // The new state and the answer of the call.
  function Next(cfg: Config, s: State, step: Step, now: int): (State, bool) {
    match step
    case Message(channel, remote, inv) => CheckInvite(cfg, s, channel, remote, inv, now)
    case OpenRequest(target, remote, inv) =>
      if Required(cfg, target) then VerifyRemote(s, inv, target, remote, now) else (s, true)
    case AcceptLocal(inv, channel) =>
      if cfg.selfKey != "" && Verifies(s, inv, channel, cfg.selfKey, false, now) then
        (Record(s.(local := s.local[channel := inv.expiresAt.value]), channel, inv.inviter, inv.expiresAt.value), true)
      else (s, false)
    case Authorize(channel, remote) =>
      if !Required(cfg, channel) || IsInviter(s, remote) then (s, true)
      else (DropExpired(s, channel, remote, now), IsInvited(s, channel, remote, now))
    case AddInviter(key) =>
      if !IsHex64(key) then (s, false)
      else (s.(inviterKeys := Some((if s.inviterKeys.Some? then s.inviterKeys.value else {}) + {key})), true)
    case RemoveChannel(channel, registered) =>
      if channel == "" || channel == cfg.entryChannel || !registered then (s, false)
      else (s.(invited := s.invited - {channel}, local := s.local - {channel}), true)
  }

  // ---------------------------------------------------------------- the node

  class Node {
    const cfg: Config
    var inviterKeys: Option<set<string>>
    var invitedPeers: map<string, map<string, int>>
    var localInvites: map<string, int>

    ghost function Snapshot(): State
      reads this
    {
      State(inviterKeys, invitedPeers, localInvites)
    }

    constructor (cfg: Config)
      ensures this.cfg == cfg && Snapshot() == Fresh(cfg)
    {
      this.cfg := cfg;
      var keys := cfg.inviterKeys - {""};
      if cfg.inviteRequired && cfg.selfKey != "" { keys := keys + {cfg.selfKey}; }
      inviterKeys := if keys == {} then None else Some(keys);
      invitedPeers, localInvites := map[], map[];
    }

    method InviteRequired(channel: string) returns (r: bool)
      ensures r == Required(cfg, channel)
    {
      if channel != "" && cfg.entryChannel != "" && channel == cfg.entryChannel { return false; }
      if !cfg.inviteRequired { return false; }
      if cfg.channels.Some? && channel in cfg.channels.value { return true; }
      if cfg.prefixes.Some? {
        var prefixes, i := cfg.prefixes.value, 0;
        while i < |prefixes|
          invariant 0 <= i <= |prefixes| && AnyPrefix(prefixes, channel) == AnyPrefix(prefixes[i..], channel)
        {
          if prefixes[i] != "" && prefixes[i] <= channel { return true; }
          i := i + 1;
        }
      }
      r := cfg.channels.None? && cfg.prefixes.None?;
    }

    method LookUpInvited(channel: string, key: string, now: int) returns (r: bool)
      modifies this
      ensures Snapshot() == DropExpired(old(Snapshot()), channel, key, now) && r == IsInvited(old(Snapshot()), channel, key, now)
    {
      if channel !in invitedPeers || key !in invitedPeers[channel] { return false; }
      if invitedPeers[channel][key] <= now {
        invitedPeers := invitedPeers[channel := invitedPeers[channel] - {key}];
        return false;
      }
      r := true;
    }

    method LookUpLocal(channel: string, now: int) returns (r: bool)
      modifies this
      ensures Snapshot() == DropExpiredLocal(old(Snapshot()), channel, now) && r == IsLocallyInvited(old(Snapshot()), channel, now)
    {
      if channel !in localInvites { return false; }
      if localInvites[channel] <= now {
        localInvites := localInvites - {channel};
        return false;
      }
      r := true;
    }

    method RememberInvite(channel: string, key: string, expiresAt: int)
      modifies this
      ensures Snapshot() == Record(old(Snapshot()), channel, key, expiresAt)
    {
      var m := if channel in invitedPeers then invitedPeers[channel] else map[];
      invitedPeers := invitedPeers[channel := m[key := expiresAt]];
    }

    method VerifyInviteForKey(inv: Invite, channel: string, invitee: string, needTrusted: bool, now: int) returns (r: bool)
      ensures r == Verifies(Snapshot(), inv, channel, invitee, needTrusted, now)
    {
      if inv.channel != channel { return false; }
      if inv.invitee != invitee { return false; }
      if inv.inviter == "" { return false; }
      if needTrusted && inviterKeys.Some? && inv.inviter !in inviterKeys.value { return false; }
      if inv.issuedAt.None? || inv.expiresAt.None? { return false; }
      if inv.expiresAt.value <= now { return false; }
      r := inv.signed;
    }

    method VerifyInvite(inv: Option<Invite>, channel: string, remote: string, now: int) returns (r: bool)
      modifies this
      ensures (Snapshot(), r) == VerifyRemote(old(Snapshot()), inv, channel, remote, now)
    {
      if inv.None? { return false; }
      r := VerifyInviteForKey(inv.value, channel, remote, true, now);
      if r { RememberInvite(channel, remote, inv.value.expiresAt.value); }
    }

    method CheckPayload(channel: string, remote: string, inv: Option<Invite>, now: int) returns (r: bool)
      modifies this
      ensures (Snapshot(), r) == CheckInvite(cfg, old(Snapshot()), channel, remote, inv, now)
    {
      var required := InviteRequired(channel);
      if !required { return true; }
      var selfIsInviter := inviterKeys.Some? && cfg.selfKey != "" && cfg.selfKey in inviterKeys.value;
      if !selfIsInviter {
        var locally := LookUpLocal(channel, now);
        if !locally { return false; }
      }
      if inviterKeys.Some? && remote in inviterKeys.value { return true; }
      var invited := LookUpInvited(channel, remote, now);
      if invited { return true; }
      r := VerifyInvite(inv, channel, remote, now);
    }

    method AcceptLocalInvite(inv: Invite, channel: string, now: int) returns (r: bool)
      modifies this
      ensures (Snapshot(), r) == Next(cfg, old(Snapshot()), AcceptLocal(inv, channel), now)
    {
      if cfg.selfKey == "" { return false; }
      r := VerifyInviteForKey(inv, channel, cfg.selfKey, false, now);
      if r {
        localInvites := localInvites[channel := inv.expiresAt.value];
        RememberInvite(channel, inv.inviter, inv.expiresAt.value);
      }
    }

    method RemoteAuthorized(channel: string, remote: string, now: int) returns (r: bool)
      modifies this
      ensures (Snapshot(), r) == Next(cfg, old(Snapshot()), Authorize(channel, remote), now)
    {
      var required := InviteRequired(channel);
      if !required { return true; }
      if inviterKeys.Some? && remote in inviterKeys.value { return true; }
      r := LookUpInvited(channel, remote, now);
    }

    method ForgetChannel(channel: string, registered: bool) returns (r: bool)
      modifies this
      ensures (Snapshot(), r) == Next(cfg, old(Snapshot()), RemoveChannel(channel, registered), 0)
    {
      if channel == "" || channel == cfg.entryChannel || !registered { return false; }
      invitedPeers := invitedPeers - {channel};
      localInvites := localInvites - {channel};
      r := true;
    }

    method AddInviterKey(key: string) returns (r: bool)
      modifies this
      ensures (Snapshot(), r) == Next(cfg, old(Snapshot()), AddInviter(key), 0)
    {
      if !IsHex64(key) { return false; }
      if inviterKeys.None? { inviterKeys := Some({}); }
      inviterKeys := Some(inviterKeys.value + {key});
      r := true;
    }
  }

  // ---------------------------------------------------------------- evidence

  // An invite that verified: presented by its invitee, or accepted locally.
  datatype Evidence = Evidence(invite: Invite, locally: bool, at: int)

  // Why the key may be remembered on the channel until expiresAt.
  predicate Backs(cfg: Config, s: State, e: Evidence, channel: string, key: string, expiresAt: int) {
    && e.invite.channel == channel && e.invite.expiresAt == Some(expiresAt) && expiresAt > e.at && e.invite.signed
    && if e.locally then cfg.selfKey != "" && e.invite.invitee == cfg.selfKey && e.invite.inviter == key
       else e.invite.invitee == key && (cfg.inviteRequired && cfg.selfKey != "" ==> IsInviter(s, e.invite.inviter))
  }

  // What one step adds to the evidence.
  function NewEvidence(cfg: Config, s: State, step: Step, now: int): seq<Evidence> {
    match step
    case Message(channel, remote, inv) =>
      if inv.Some? && Verifies(s, inv.value, channel, remote, true, now) then [Evidence(inv.value, false, now)] else []
    case OpenRequest(target, remote, inv) =>
      if inv.Some? && Verifies(s, inv.value, target, remote, true, now) then [Evidence(inv.value, false, now)] else []
    case AcceptLocal(inv, channel) =>
      if cfg.selfKey != "" && Verifies(s, inv, channel, cfg.selfKey, false, now) then [Evidence(inv, true, now)] else []
    case _ => []
  }

  datatype Timed = Timed(step: Step, now: int)

  function Run(cfg: Config, steps: seq<Timed>): (State, seq<Evidence>) {
    if steps == [] then (Fresh(cfg), [])
    else
      var (s, es) := Run(cfg, steps[..|steps| - 1]);
      var t := steps[|steps| - 1];
      (Next(cfg, s, t.step, t.now).0, es + NewEvidence(cfg, s, t.step, t.now))
  }

  ghost predicate Backed(cfg: Config, s: State, es: seq<Evidence>, channel: string, key: string, expiresAt: int) {
    exists i | 0 <= i < |es| :: Backs(cfg, s, es[i], channel, key, expiresAt)
  }

  ghost predicate Inv(cfg: Config, s: State, es: seq<Evidence>) {
    && (forall c, k | Recorded(s, c, k).Some? :: Backed(cfg, s, es, c, k, Recorded(s, c, k).value))
    && (cfg.inviteRequired && cfg.selfKey != "" ==> IsInviter(s, cfg.selfKey))
    && (cfg.selfKey == "" ==> s.local == map[])
  }

  // Evidence and inviters only grow.
  lemma BackedStill(cfg: Config, s: State, es: seq<Evidence>, s': State, more: seq<Evidence>, c: string, k: string, x: int)
    requires Backed(cfg, s, es, c, k, x) && forall key | IsInviter(s, key) :: IsInviter(s', key)
    ensures Backed(cfg, s', es + more, c, k, x)
  {
    var i :| 0 <= i < |es| && Backs(cfg, s, es[i], c, k, x);
    assert Backs(cfg, s', (es + more)[i], c, k, x);
  }

  lemma StepKeeps(cfg: Config, s: State, es: seq<Evidence>, step: Step, now: int)
    requires Inv(cfg, s, es)
    ensures Inv(cfg, Next(cfg, s, step, now).0, es + NewEvidence(cfg, s, step, now))
  {
    var s', more := Next(cfg, s, step, now).0, NewEvidence(cfg, s, step, now);
    forall c, k | Recorded(s', c, k).Some? ensures Backed(cfg, s', es + more, c, k, Recorded(s', c, k).value) {
      var x := Recorded(s', c, k).value;
      if Recorded(s, c, k) == Some(x) {
        BackedStill(cfg, s, es, s', more, c, k, x);
      } else {
        assert Backs(cfg, s', (es + more)[|es|], c, k, x);
      }
    }
  }

  lemma {:induction false} RunKeeps(cfg: Config, steps: seq<Timed>)
    ensures Inv(cfg, Run(cfg, steps).0, Run(cfg, steps).1)
  {
    if steps != [] {
      var (s, es) := Run(cfg, steps[..|steps| - 1]);
      RunKeeps(cfg, steps[..|steps| - 1]);
      StepKeeps(cfg, s, es, steps[|steps| - 1].step, steps[|steps| - 1].now);
    }
  }

  // After any run: a payload passes on an invite-required channel only from a configured inviter, or
  // from a peer with an unexpired invite behind it, seen before or carried by this very message, and
  // signed by a configured inviter unless this node accepted it itself.
  lemma PassNeedsInvite(cfg: Config, steps: seq<Timed>, channel: string, remote: string, inv: Option<Invite>, now: int)
    requires Required(cfg, channel) && Next(cfg, Run(cfg, steps).0, Message(channel, remote, inv), now).1
    ensures var (s, es) := Run(cfg, steps);
      IsInviter(s, remote) ||
      exists x :: x > now && Backed(cfg, s, es + NewEvidence(cfg, s, Message(channel, remote, inv), now), channel, remote, x)
  {
    var (s, es) := Run(cfg, steps);
    RunKeeps(cfg, steps);
    var step := Message(channel, remote, inv);
    var more := NewEvidence(cfg, s, step, now);
    if !IsInviter(s, remote) {
      if IsInvited(s, channel, remote, now) {
        BackedStill(cfg, s, es, s, more, channel, remote, Recorded(s, channel, remote).value);
      } else {
        var x := inv.value.expiresAt.value;
        assert Backs(cfg, s, (es + more)[|es|], channel, remote, x);
        assert x > now && Backed(cfg, s, es + more, channel, remote, x);
      }
    }
  }

  // Because an invite-requiring node counts itself an inviter, whether it was itself invited is never
  // asked: a payload passes exactly when the sender is an inviter, is invited, or carries an invite
  // that verifies. Without a key of its own the node refuses everything.
  lemma PassExactly(cfg: Config, steps: seq<Timed>, channel: string, remote: string, inv: Option<Invite>, now: int)
    requires Required(cfg, channel)
    ensures var s := Run(cfg, steps).0;
      Next(cfg, s, Message(channel, remote, inv), now).1 <==>
      cfg.selfKey != "" &&
      (IsInviter(s, remote) || IsInvited(s, channel, remote, now) ||
       (inv.Some? && Verifies(s, inv.value, channel, remote, true, now)))
  {
    RunKeeps(cfg, steps);
  }

  // Removing a channel forgets everyone on it.
  lemma RemovedForgets(cfg: Config, s: State, channel: string, key: string, now: int)
    requires channel != "" && channel != cfg.entryChannel
    ensures var s' := Next(cfg, s, RemoveChannel(channel, true), now).0;
      Recorded(s', channel, key).None? && !IsLocallyInvited(s', channel, now) &&
      forall c | c != channel :: Recorded(s', c, key) == Recorded(s, c, key)
  {
  }

  // ---------------------------------------------------------------- every call's answer and effect

  // Where invites are asked for: never on the entry channel; else, if at all, on every channel, or on the
  // listed ones and those with a listed non-empty prefix.
  lemma {:induction false} PrefixExactly(prefixes: seq<string>, channel: string)
    ensures AnyPrefix(prefixes, channel) <==> exists i :: 0 <= i < |prefixes| && prefixes[i] != "" && prefixes[i] <= channel
  {
    if prefixes != [] {
      PrefixExactly(prefixes[1..], channel);
      if i :| 0 <= i < |prefixes[1..]| && prefixes[1..][i] != "" && prefixes[1..][i] <= channel { assert prefixes[i + 1] <= channel; }
      if i :| 0 < i < |prefixes| && prefixes[i] != "" && prefixes[i] <= channel { assert prefixes[1..][i - 1] <= channel; }
    }
  }

  ghost predicate Asked(cfg: Config, channel: string) {
    || (cfg.channels == None && cfg.prefixes == None)
    || (cfg.channels.Some? && channel in cfg.channels.value)
    || (cfg.prefixes.Some? && exists i :: 0 <= i < |cfg.prefixes.value| && cfg.prefixes.value[i] != "" && cfg.prefixes.value[i] <= channel)
  }

  lemma RequiredExactly(cfg: Config, channel: string)
    ensures Required(cfg, channel) <==>
      cfg.inviteRequired && (channel == "" || channel != cfg.entryChannel) && Asked(cfg, channel)
  {
    if cfg.prefixes.Some? { PrefixExactly(cfg.prefixes.value, channel); }
  }

  // The invite a key presents counts: for this channel and this key, from a trusted inviter where there
  // are any, with both times, not expired, and signed by the inviter.
  predicate Counts(inv: Option<Invite>, trusted: Option<set<string>>, channel: string, key: string, now: int) {
    match inv
    case None => false
    case Some(i) =>
      && i.channel == channel && i.invitee == key && i.inviter != "" && i.signed
      && (trusted == None || i.inviter in trusted.value)
      && i.issuedAt != None && i.expiresAt != None && i.expiresAt.value > now
  }

  // Records change for this key on this channel only.
  ghost predicate OnlyRecord(s: State, s': State, channel: string, key: string, expiresAt: Option<int>) {
    && s'.inviterKeys == s.inviterKeys
    && forall c, k :: Recorded(s', c, k) == if c == channel && k == key then expiresAt else Recorded(s, c, k)
  }

  // A channel may be opened without an invite where none is asked for, and else exactly with one that
  // counts, which is then remembered.
  lemma OpenExactly(cfg: Config, s: State, target: string, remote: string, inv: Option<Invite>, now: int)
    ensures var (s', ok) := Next(cfg, s, OpenRequest(target, remote, inv), now);
      && (ok <==> !Required(cfg, target) || Counts(inv, s.inviterKeys, target, remote, now))
      && s'.local == s.local
      && OnlyRecord(s, s', target, remote,
           if Required(cfg, target) && Counts(inv, s.inviterKeys, target, remote, now) then inv.value.expiresAt else Recorded(s, target, remote))
  {
  }

  // Where invites are asked for, a payload passes exactly when the node is an inviter or was invited to the
  // channel itself, and the remote is an inviter, was invited or brings an invite that counts. That invite
  // is remembered; an expired record is dropped when it is looked up.
  lemma MessageExactly(cfg: Config, s: State, channel: string, remote: string, inv: Option<Invite>, now: int)
    requires Required(cfg, channel)
    ensures var (s', ok) := Next(cfg, s, Message(channel, remote, inv), now); var r := Recorded(s, channel, remote);
      var inside := (cfg.selfKey != "" && IsInviter(s, cfg.selfKey)) || (channel in s.local && s.local[channel] > now);
      var known := IsInviter(s, remote) || (r.Some? && r.value > now);
      && (ok <==> inside && (known || Counts(inv, s.inviterKeys, channel, remote, now)))
      && s'.local == (if inside then s.local else s.local - {channel})
      && OnlyRecord(s, s', channel, remote,
           if !inside || known then r else if Counts(inv, s.inviterKeys, channel, remote, now) then inv.value.expiresAt else None)
  {
  }

  // A peer is authorized exactly where no invite is asked for, as an inviter, or with a record that has
  // not expired; an expired one is dropped.
  lemma AuthorizeExactly(cfg: Config, s: State, channel: string, remote: string, now: int)
    ensures var (s', ok) := Next(cfg, s, Authorize(channel, remote), now); var r := Recorded(s, channel, remote);
      && (ok <==> !Required(cfg, channel) || IsInviter(s, remote) || (r.Some? && r.value > now))
      && s'.local == s.local
      && OnlyRecord(s, s', channel, remote, if ok then r else None)
  {
  }

  // A node accepts an invite for its own key from any inviter, and then remembers both the channel and
  // the inviter until it expires.
  lemma AcceptLocalExactly(cfg: Config, s: State, inv: Invite, channel: string, now: int)
    ensures var (s', ok) := Next(cfg, s, AcceptLocal(inv, channel), now);
      && (ok <==> cfg.selfKey != "" && Counts(Some(inv), None, channel, cfg.selfKey, now))
      && (if ok then s'.local == s.local[channel := inv.expiresAt.value] && OnlyRecord(s, s', channel, inv.inviter, inv.expiresAt)
          else s' == s)
  {
  }

  // A valid key becomes an inviter, and the list then exists; nothing else changes.
  lemma AddInviterExactly(cfg: Config, s: State, key: string, k: string, now: int)
    ensures var (s', ok) := Next(cfg, s, AddInviter(key), now);
      && (ok <==> IsHex64(key)) && s'.invited == s.invited && s'.local == s.local
      && (IsInviter(s', k) <==> IsInviter(s, k) || (ok && k == key))
      && (ok ==> s'.inviterKeys.Some?) && (!ok ==> s' == s)
  {
  }

  // The inviters at the start: the configured keys, and the node's own where invites are required.
  lemma FreshExactly(cfg: Config, k: string)
    ensures IsInviter(Fresh(cfg), k) <==> k != "" && (k in cfg.inviterKeys || (cfg.inviteRequired && k == cfg.selfKey))
    ensures Fresh(cfg).invited == map[] && Fresh(cfg).local == map[]
  {
  }

  // What is removed, and when nothing is.
  lemma RemoveExactly(cfg: Config, s: State, channel: string, registered: bool, now: int)
    ensures var (s', ok) := Next(cfg, s, RemoveChannel(channel, registered), now);
      && (ok <==> channel != "" && channel != cfg.entryChannel && registered) && (!ok ==> s' == s)
      && s'.inviterKeys == s.inviterKeys
      && (ok ==> s'.local == s.local - {channel} && forall c, k :: Recorded(s', c, k) == if c == channel then None else Recorded(s, c, k))
  {
  }
}
