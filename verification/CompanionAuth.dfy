/** The companion link's pairing and authentication: four trusted records, a button
    sequence that confirms pairing, and a challenge-response proof. */
module CompanionAuth {
  import opened Bytes
  import opened Esp
  import T = CompanionTlv

  const MAX_TRUSTED_CLIENTS: nat := 4
  const CLIENT_ID_MAX_LEN: nat := 36
  const APP_NAME_MAX_LEN: nat := 32
  const SECRET_LEN: nat := 32
  const HMAC_LEN: nat := 32
  const NONCE_LEN: nat := 16
  type Nonce = b: seq<byte> | |b| == NONCE_LEN witness NO_NONCE
  const NO_NONCE: seq<byte> := [0, 0, 0, 0, 0, 0, 0, 0, 0, 0, 0, 0, 0, 0, 0, 0]
  const SEQUENCE_LEN: nat := 4
  const HID_BUTTON_COUNT: nat := 6
  /** Two minutes at the configured 100 ticks a second. */
  const PAIRING_TIMEOUT_TICKS: nat := 12000

  const TLV_CLIENT_ID: uint16 := 0x0101
  const TLV_APP_NAME: uint16 := 0x0102
  const TLV_SHARED_SECRET: uint16 := 0x0103
  const TLV_BUTTON_SEQUENCE: uint16 := 0x0104
  const TLV_AUTH_HMAC: uint16 := 0x0109

  datatype Option<+T> = None | Some(value: T)

  type Text = seq<byte>
  /** HMAC-SHA256 of secret and data; it may fail, and nothing else is assumed about it. */
  type Hmac = (seq<byte>, seq<byte>) -> Option<seq<byte>>

  datatype Record = Record(clientId: Text, appName: Text, secret: seq<byte>, createdAt: uint32)

  datatype Pairing = Pairing(
    clientId: Text, appName: Text, secret: seq<byte>, sequence: seq<byte>,
    requestId: uint32, deadline: uint32, progress: nat)

  /** What one store or revocation meets: the namespace opening, and the commit. An edit
      takes effect only when both succeed. */
  datatype Nvs = Nvs(opens: Err, commits: Err)

  /** The service's state; `presses` records the button presses the current pairing has
      looked at. */
  datatype State = State(
    slots: seq<Option<Record>>, trustedCount: nat,
    authenticated: bool, activeClientId: Text,
    challenge: Option<(Text, Nonce)>,
    pairing: Option<Pairing>, presses: seq<byte>)

  // ----- Text as C sees it -----

  /** Bytes up to the first zero. */
  function UpToZero(bytes: seq<byte>): (text: Text)
    ensures |text| <= |bytes| && 0 !in text
  {
    if bytes == [] || bytes[0] == 0 then [] else [bytes[0]] + UpToZero(bytes[1..])
  }

  function AsText(bytes: seq<byte>, maxLen: nat): (text: Text)
    ensures |text| <= maxLen
  {
    UpToZero(if |bytes| > maxLen then bytes[..maxLen] else bytes)
  }

  function FindValue(payload: seq<byte>, kind: uint16): T.Option<seq<byte>> {
    T.FirstOfKind(T.Entries(payload), kind)
  }

  function FindText(payload: seq<byte>, kind: uint16, maxLen: nat): Option<Text> {
    match FindValue(payload, kind)
    case None => None
    case Some(value) => Some(AsText(value, maxLen))
  }

  // ----- Trusted records -----

  function FindRecord(slots: seq<Option<Record>>, clientId: Text): (slot: Option<nat>)
    ensures slot.Some? ==> slot.value < |slots| && slots[slot.value].Some? &&
                           slots[slot.value].value.clientId == clientId && clientId != []
    ensures slot.None? ==> clientId == [] || forall i :: 0 <= i < |slots| && slots[i].Some? ==>
                                               slots[i].value.clientId != clientId
  {
    if clientId == [] || slots == [] then None
    else
      var last := |slots| - 1;
      match FindRecord(slots[..last], clientId)
      case Some(slot) => Some(slot)
      case None =>
        if slots[last].Some? && slots[last].value.clientId == clientId then Some(last) else None
  }

  function FindFree(slots: seq<Option<Record>>): (slot: Option<nat>)
    ensures slot.Some? ==> slot.value < |slots| && slots[slot.value].None?
    ensures slot.None? ==> forall i :: 0 <= i < |slots| ==> slots[i].Some?
  {
    if slots == [] then None
    else
      var last := |slots| - 1;
      match FindFree(slots[..last])
      case Some(slot) => Some(slot)
      case None => if slots[last].None? then Some(last) else None
  }

  function CountTrusted(slots: seq<Option<Record>>): nat {
    if slots == [] then 0
    else CountTrusted(slots[..|slots| - 1]) + if slots[|slots| - 1].Some? then 1 else 0
  }

  lemma NoRecordsCount()
    ensures CountTrusted(NO_RECORDS) == 0
  {
    var three, two, one := NO_RECORDS[..3], NO_RECORDS[..2], NO_RECORDS[..1];
    assert three[..2] == two && two[..1] == one && one[..0] == [];
    assert CountTrusted(one) == 0 && CountTrusted(two) == 0 && CountTrusted(three) == 0;
  }

  ghost predicate Stored(slots: seq<Option<Record>>, clientId: Text) {
    exists i :: 0 <= i < |slots| && slots[i].Some? && slots[i].value.clientId == clientId
  }

  function StoreSlot(slots: seq<Option<Record>>, clientId: Text): (slot: Option<nat>)
    ensures slot.Some? ==> slot.value < |slots|
  {
    var found := FindRecord(slots, clientId);
    if found.Some? then found else FindFree(slots)
  }

  // ----- What each message does -----

  /** Storing a record: its error, and the state it leaves. */
  function Store(s: State, record: Record, nvs: Nvs): (Err, State) {
    if record.clientId == [] then (INVALID_ARG, s)
    else
      var slot := StoreSlot(s.slots, record.clientId);
      if slot.None? then (NO_MEM, s)
      else if nvs.opens != OK then (nvs.opens, s)
      else
        var slots := if nvs.commits == OK then s.slots[slot.value := Some(record)] else s.slots;
        (nvs.commits, s.(slots := slots, trustedCount := CountTrusted(slots)))
  }

  /** Pairing completes with the pending record stored and the link authenticated as it. */
  function Complete(s: State, now: uint32, nvs: Nvs): (Err, State) {
    if s.pairing.None? then (INVALID_STATE, s)
    else
      var p := s.pairing.value;
      var (err, t) := Store(s, Record(p.clientId, p.appName, p.secret, now), nvs);
      if err != OK then (err, t)
      else (OK, t.(authenticated := true, activeClientId := p.clientId, pairing := None, presses := []))
  }

  function Press(s: State, button: byte, ticks: uint32, now: uint32, nvs: Nvs): (Err, State) {
    if s.pairing.None? || s.pairing.value.progress >= SEQUENCE_LEN then (INVALID_STATE, s)
    else if ticks > s.pairing.value.deadline then (TIMEOUT, s.(pairing := None, presses := []))
    else
      var p := s.pairing.value;
      var t := s.(presses := s.presses + [button]);
      if p.progress >= |p.sequence| || button != p.sequence[p.progress] then
        (INVALID_ARG, t.(pairing := Some(p.(progress := 0))))
      else
        var u := t.(pairing := Some(p.(progress := p.progress + 1)));
        if p.progress + 1 >= SEQUENCE_LEN then Complete(u, now, nvs) else (OK, u)
  }

  function PairBegin(s: State, requestId: uint32, payload: seq<byte>, ticks: uint32): (Err, State) {
    var clientId := FindText(payload, TLV_CLIENT_ID, CLIENT_ID_MAX_LEN);
    var appName := FindText(payload, TLV_APP_NAME, APP_NAME_MAX_LEN);
    var secret := FindValue(payload, TLV_SHARED_SECRET);
    var sequence := FindValue(payload, TLV_BUTTON_SEQUENCE);
    if clientId.None? || appName.None? || secret.None? || sequence.None? ||
       |secret.value| != SECRET_LEN || |sequence.value| != SEQUENCE_LEN || clientId.value == [] ||
       (exists i :: 0 <= i < SEQUENCE_LEN && sequence.value[i] >= HID_BUTTON_COUNT)
    then (INVALID_ARG, s)
    else
      var deadline: uint32 := (ticks + PAIRING_TIMEOUT_TICKS) % 0x1_0000_0000;
      (OK, s.(pairing := Some(Pairing(clientId.value, appName.value, secret.value, sequence.value,
                                      requestId, deadline, 0)),
              presses := []))
  }

  function Challenge(s: State, payload: seq<byte>, nonce: Nonce): (Err, State) {
    var clientId := FindText(payload, TLV_CLIENT_ID, CLIENT_ID_MAX_LEN);
    if clientId.None? || FindRecord(s.slots, clientId.value).None? then (NOT_FOUND, s)
    else (OK, s.(challenge := Some((clientId.value, nonce))))
  }

  /** A proof names the challenged client, which is still trusted, and carries the HMAC of
      the pending nonce under that client's secret. */
  predicate ProofHolds(s: State, payload: seq<byte>, hmac: Hmac) {
    && s.challenge.Some?
    && FindText(payload, TLV_CLIENT_ID, CLIENT_ID_MAX_LEN) == Some(s.challenge.value.0)
    && FindValue(payload, TLV_AUTH_HMAC).Some?
    && |FindValue(payload, TLV_AUTH_HMAC).value| == HMAC_LEN
    && var slot := FindRecord(s.slots, s.challenge.value.0);
       slot.Some? &&
       hmac(s.slots[slot.value].value.secret, s.challenge.value.1)
       == Some(FindValue(payload, TLV_AUTH_HMAC).value)
  }

  function Prove(s: State, payload: seq<byte>, hmac: Hmac): State {
    if ProofHolds(s, payload, hmac)
    then s.(authenticated := true, challenge := None, activeClientId := s.challenge.value.0)
    else s
  }

  function Revoke(s: State, clientId: Text, nvs: Nvs): (Err, State) {
    var slot := FindRecord(s.slots, clientId);
    if slot.None? then (NOT_FOUND, s)
    else if nvs.opens != OK then (nvs.opens, s)
    else if nvs.commits != OK then (nvs.commits, s.(trustedCount := CountTrusted(s.slots)))
    else
      var slots := s.slots[slot.value := None];
      var t := s.(slots := slots, trustedCount := CountTrusted(slots));
      (OK, if s.activeClientId == clientId then t.(authenticated := false, activeClientId := []) else t)
  }

  const NO_RECORDS: seq<Option<Record>> := [None, None, None, None]

  function RevokeAll(s: State, nvs: Nvs): (Err, State) {
    if nvs.opens != OK then (nvs.opens, s)
    else if nvs.commits != OK then (nvs.commits, s)
    else (OK, s.(slots := NO_RECORDS, trustedCount := 0, authenticated := false, activeClientId := []))
  }

  datatype Msg =
    | PairBeginRequest(requestId: uint32, payload: seq<byte>, ticks: uint32)
    | PairCancelRequest
    | ChallengeRequest(payload: seq<byte>, nonce: Nonce)
    | ProofRequest(payload: seq<byte>)
    | RevokeRequest(payload: seq<byte>, nvs: Nvs)
    | Button(button: byte, ticks: uint32, now: uint32, nvs: Nvs)
    | ConsoleConfirm(now: uint32, nvs: Nvs)
    | ConsoleCancel
    | ConsoleRevoke(clientId: Text, nvs: Nvs)
    | ConsoleRevokeAll(nvs: Nvs)
    | LinkConnected
    | LinkDisconnected
    | Heartbeat(ticks: uint32)

  predicate IsRequest(msg: Msg) {
    msg.PairBeginRequest? || msg.PairCancelRequest? || msg.ChallengeRequest? || msg.ProofRequest? || msg.RevokeRequest?
  }

  function Step(s: State, msg: Msg, hmac: Hmac): State {
    match msg
    case PairBeginRequest(requestId, payload, ticks) => PairBegin(s, requestId, payload, ticks).1
    case PairCancelRequest => s.(pairing := None, presses := [])
    case ChallengeRequest(payload, nonce) => Challenge(s, payload, nonce).1
    case ProofRequest(payload) => Prove(s, payload, hmac)
    case RevokeRequest(payload, nvs) =>
      var clientId := FindText(payload, TLV_CLIENT_ID, CLIENT_ID_MAX_LEN);
      if !s.authenticated || clientId.None? then s else Revoke(s, clientId.value, nvs).1
    case Button(button, ticks, now, nvs) => Press(s, button, ticks, now, nvs).1
    case ConsoleConfirm(now, nvs) => Complete(s, now, nvs).1
    case ConsoleCancel => s.(pairing := None, presses := [])
    case ConsoleRevoke(clientId, nvs) => Revoke(s, clientId, nvs).1
    case ConsoleRevokeAll(nvs) => RevokeAll(s, nvs).1
    case LinkConnected => s
    case LinkDisconnected => s.(authenticated := false, activeClientId := [], challenge := None)
    case Heartbeat(ticks) =>
      if s.pairing.Some? && ticks > s.pairing.value.deadline then s.(pairing := None, presses := []) else s
  }

  // ----- What every message keeps -----

  ghost predicate DistinctIds(slots: seq<Option<Record>>) {
    && (forall i :: 0 <= i < |slots| && slots[i].Some? ==> slots[i].value.clientId != [])
    && (forall i, j :: 0 <= i < j < |slots| && slots[i].Some? && slots[j].Some? ==>
          slots[i].value.clientId != slots[j].value.clientId)
  }

  /** Progress `k` means the last `k` presses looked at are the first `k` of the sequence. */
  ghost predicate ProgressMatches(s: State) {
    s.pairing.Some? ==>
      var p := s.pairing.value;
      && p.clientId != [] && |p.sequence| == SEQUENCE_LEN
      && p.progress <= SEQUENCE_LEN && p.progress <= |s.presses|
      && s.presses[|s.presses| - p.progress..] == p.sequence[..p.progress]
  }

  ghost predicate Inv(s: State) {
    && |s.slots| == MAX_TRUSTED_CLIENTS && DistinctIds(s.slots)
    && s.trustedCount == CountTrusted(s.slots)
    && (s.authenticated ==> Stored(s.slots, s.activeClientId))
    && ProgressMatches(s)
  }

  lemma StoreKeepsDistinct(slots: seq<Option<Record>>, record: Record, slot: nat)
    requires DistinctIds(slots) && record.clientId != []
    requires StoreSlot(slots, record.clientId) == Some(slot)
    ensures DistinctIds(slots[slot := Some(record)])
    ensures Stored(slots[slot := Some(record)], record.clientId)
    ensures forall id :: Stored(slots, id) ==> Stored(slots[slot := Some(record)], id)
  {
    var after := slots[slot := Some(record)];
    assert after[slot] == Some(record);
    forall id | Stored(slots, id) ensures Stored(after, id) {
      var i :| 0 <= i < |slots| && slots[i].Some? && slots[i].value.clientId == id;
      if i == slot {
        assert slots[slot].Some? && record.clientId == id;
      } else {
        assert after[i] == slots[i];
      }
    }
    forall i, j | 0 <= i < j < |after| && after[i].Some? && after[j].Some?
      ensures after[i].value.clientId != after[j].value.clientId
    {
      if FindRecord(slots, record.clientId).Some? {
        assert slots[slot].value.clientId == record.clientId;
      }
    }
  }

  lemma StoreKeepsInv(s: State, record: Record, nvs: Nvs)
    requires Inv(s)
    ensures var (err, t) := Store(s, record, nvs);
            Inv(t) && (err == OK ==> Stored(t.slots, record.clientId)) && t.pairing == s.pairing
  {
    var slot := StoreSlot(s.slots, record.clientId);
    if record.clientId != [] && slot.Some? {
      StoreKeepsDistinct(s.slots, record, slot.value);
    }
  }

  lemma CompleteKeepsInv(s: State, now: uint32, nvs: Nvs)
    requires Inv(s)
    ensures Inv(Complete(s, now, nvs).1)
  {
    if s.pairing.Some? {
      var p := s.pairing.value;
      StoreKeepsInv(s, Record(p.clientId, p.appName, p.secret, now), nvs);
    }
  }

  /** One more press that fits. */
  ghost function Grown(s: State, button: byte): State
    requires s.pairing.Some?
  {
    var p := s.pairing.value;
    s.(presses := s.presses + [button], pairing := Some(p.(progress := p.progress + 1)))
  }

  lemma FittingPressKeepsInv(s: State, button: byte)
    requires Inv(s) && s.pairing.Some? && s.pairing.value.progress < SEQUENCE_LEN
    requires button == s.pairing.value.sequence[s.pairing.value.progress]
    ensures Inv(Grown(s, button))
  {
    var p, presses := s.pairing.value, s.presses + [button];
    assert presses[|presses| - (p.progress + 1)..] == s.presses[|s.presses| - p.progress..] + [button];
    assert p.sequence[..p.progress + 1] == p.sequence[..p.progress] + [button];
  }

  lemma PressKeepsInv(s: State, button: byte, ticks: uint32, now: uint32, nvs: Nvs)
    requires Inv(s)
    ensures Inv(Press(s, button, ticks, now, nvs).1)
  {
    if s.pairing.Some? && s.pairing.value.progress < SEQUENCE_LEN && ticks <= s.pairing.value.deadline {
      var p := s.pairing.value;
      if button == p.sequence[p.progress] {
        FittingPressKeepsInv(s, button);
        CompleteKeepsInv(Grown(s, button), now, nvs);
      }
    }
  }

  lemma RevokeKeepsInv(s: State, clientId: Text, nvs: Nvs)
    requires Inv(s)
    ensures Inv(Revoke(s, clientId, nvs).1)
  {
    var slot := FindRecord(s.slots, clientId);
    if slot.Some? && nvs.opens == OK && nvs.commits == OK && s.authenticated && s.activeClientId != clientId {
      var i :| 0 <= i < |s.slots| && s.slots[i].Some? && s.slots[i].value.clientId == s.activeClientId;
      assert s.slots[slot.value := None][i] == s.slots[i];
    }
  }

  lemma StepKeepsInv(s: State, msg: Msg, hmac: Hmac)
    requires Inv(s)
    ensures Inv(Step(s, msg, hmac))
  {
    match msg
    case Button(button, ticks, now, nvs) => PressKeepsInv(s, button, ticks, now, nvs);
    case ConsoleConfirm(now, nvs) => CompleteKeepsInv(s, now, nvs);
    case ConsoleRevoke(clientId, nvs) => RevokeKeepsInv(s, clientId, nvs);
    case RevokeRequest(payload, nvs) =>
      var clientId := FindText(payload, TLV_CLIENT_ID, CLIENT_ID_MAX_LEN);
      if clientId.Some? {
        RevokeKeepsInv(s, clientId.value, nvs);
      }
    case ProofRequest(payload) =>
      if ProofHolds(s, payload, hmac) {
        var slot := FindRecord(s.slots, s.challenge.value.0);
        assert s.slots[slot.value].value.clientId == s.challenge.value.0;
      }
    case PairBeginRequest(requestId, payload, ticks) =>
      assert s.presses[..0] == [];
    case ConsoleRevokeAll(nvs) => NoRecordsCount();
    case LinkDisconnected =>
    case _ =>
  }

  // ----- Runs -----

  const START := State(NO_RECORDS, 0, false, [], None, None, [])

  ghost predicate IsRun(states: seq<State>, msgs: seq<Msg>, hmac: Hmac) {
    && |states| == |msgs| + 1 && Inv(states[0])
    && forall i :: 0 <= i < |msgs| ==> states[i + 1] == Step(states[i], msgs[i], hmac)
  }

  /** On every run from a sound store, trusted ids stay distinct and at most four, the link
      is authenticated only as a client that is still trusted, and pairing progress never
      runs ahead of the presses. */
  lemma {:induction false} RunKeepsInv(states: seq<State>, msgs: seq<Msg>, hmac: Hmac, k: nat)
    requires IsRun(states, msgs, hmac) && k < |states|
    ensures Inv(states[k])
  {
    if k > 0 {
      RunKeepsInv(states, msgs, hmac, k - 1);
      StepKeepsInv(states[k - 1], msgs[k - 1], hmac);
      assert states[k - 1 + 1] == Step(states[k - 1], msgs[k - 1], hmac);
    }
  }

  /** This message completes a pairing: by hand at the console, or with the last button of
      the sequence inside the time limit, and with the record stored. */
  ghost predicate CompletesPairing(s: State, msg: Msg) {
    s.pairing.Some? &&
    var p := s.pairing.value;
    match msg
    case ConsoleConfirm(now, nvs) => Complete(s, now, nvs).0 == OK
    case Button(button, ticks, now, nvs) =>
      && ticks <= p.deadline && p.progress == SEQUENCE_LEN - 1 && |p.sequence| == SEQUENCE_LEN
      && p.progress <= |s.presses| && s.presses + [button] == s.presses[..|s.presses| - p.progress] + p.sequence
      && Complete(s, now, nvs).0 == OK
    case _ => false
  }

  /** Who the link speaks for. */
  ghost function Speaker(s: State): Option<Text> {
    if s.authenticated then Some(s.activeClientId) else None
  }

  lemma PressThatCompletes(s: State, button: byte, ticks: uint32, now: uint32, nvs: Nvs)
    requires Inv(s) && s.pairing.Some?
    requires Speaker(Press(s, button, ticks, now, nvs).1) != Speaker(s)
    ensures CompletesPairing(s, Button(button, ticks, now, nvs))
    ensures Speaker(Press(s, button, ticks, now, nvs).1) == Some(s.pairing.value.clientId)
  {
    var p := s.pairing.value;
    assert s.presses == s.presses[..|s.presses| - p.progress] + s.presses[|s.presses| - p.progress..];
    if p.progress == SEQUENCE_LEN - 1 {
      assert p.sequence == p.sequence[..p.progress] + [p.sequence[p.progress]];
    }
  }

  /** The link comes to speak for a client only by that client's valid proof of the pending
      challenge, which uses the challenge up, or by that client's pairing completing. */
  lemma AuthenticationIsEarned(s: State, msg: Msg, hmac: Hmac)
    requires Inv(s)
    requires Step(s, msg, hmac).authenticated && Speaker(Step(s, msg, hmac)) != Speaker(s)
    ensures || (msg.ProofRequest? && ProofHolds(s, msg.payload, hmac) &&
                Speaker(Step(s, msg, hmac)) == Some(s.challenge.value.0) &&
                Step(s, msg, hmac).challenge == None)
            || (CompletesPairing(s, msg) &&
                Speaker(Step(s, msg, hmac)) == Some(s.pairing.value.clientId))
  {
    match msg
    case Button(button, ticks, now, nvs) =>
      PressThatCompletes(s, button, ticks, now, nvs);
    case _ =>
  }

  /** Pressing the whole sequence, in time and with a working store. */
  ghost function Enter(s: State, k: nat, ticks: uint32, now: uint32): State
    requires s.pairing.Some? && |s.pairing.value.sequence| == SEQUENCE_LEN && k <= SEQUENCE_LEN
    decreases k
  {
    if k == 0 then s
    else Press(Enter(s, k - 1, ticks, now), s.pairing.value.sequence[k - 1], ticks, now, Nvs(OK, OK)).1
  }

  /** One of the four presses completes the pairing. */
  ghost predicate PairsDuring(s: State, ticks: uint32, now: uint32)
    requires s.pairing.Some? && |s.pairing.value.sequence| == SEQUENCE_LEN
  {
    exists k :: 1 <= k <= SEQUENCE_LEN && Enter(s, k, ticks, now).pairing.None?
  }

  lemma LastPressPairs(s: State, j: nat, ticks: uint32, now: uint32)
    requires Inv(s) && s.pairing.Some? && ticks <= s.pairing.value.deadline
    requires StoreSlot(s.slots, s.pairing.value.clientId).Some?
    requires s.pairing.value.progress + j == SEQUENCE_LEN - 1
    requires forall i :: 0 <= i <= j ==>
               s.pairing.value.sequence[i] == s.pairing.value.sequence[s.pairing.value.progress + i]
    ensures PairsDuring(s, ticks, now)
  {
    EnterWhileFits(s, j, ticks, now);
    var k := j + 1;
    assert Enter(s, k, ticks, now) ==
           Press(Enter(s, j, ticks, now), s.pairing.value.sequence[j], ticks, now, Nvs(OK, OK)).1;
    assert Enter(s, k, ticks, now).pairing.None?;
  }

  /** The sequence overlaps itself when shifted by `progress`. */
  ghost predicate Overlaps(sequence: seq<byte>, progress: nat)
    requires |sequence| == SEQUENCE_LEN && progress < SEQUENCE_LEN
  {
    sequence[progress..] == sequence[..SEQUENCE_LEN - progress]
  }

  /** A press that does not complete the pairing only moves its progress. */
  lemma PressMoves(s: State, button: byte, ticks: uint32, now: uint32, nvs: Nvs)
    requires s.pairing.Some? && s.pairing.value.progress < SEQUENCE_LEN - 1
    requires |s.pairing.value.sequence| == SEQUENCE_LEN && ticks <= s.pairing.value.deadline
    ensures var t, p := Press(s, button, ticks, now, nvs).1, s.pairing.value;
            && t.authenticated == s.authenticated && t.slots == s.slots
            && t.pairing == Some(p.(progress := if button == p.sequence[p.progress] then p.progress + 1 else 0))
  {
  }

  /** While the sequence fits itself shifted, progress keeps growing. */
  lemma {:induction false} EnterWhileFits(s: State, j: nat, ticks: uint32, now: uint32)
    requires Inv(s) && s.pairing.Some? && ticks <= s.pairing.value.deadline
    requires s.pairing.value.progress + j < SEQUENCE_LEN
    requires forall i :: 0 <= i < j ==>
               s.pairing.value.sequence[i] == s.pairing.value.sequence[s.pairing.value.progress + i]
    ensures var p := s.pairing.value;
            Enter(s, j, ticks, now).slots == s.slots &&
            Enter(s, j, ticks, now).pairing == Some(p.(progress := p.progress + j))
  {
    if j > 0 {
      EnterWhileFits(s, j - 1, ticks, now);
      PressMoves(Enter(s, j - 1, ticks, now), s.pairing.value.sequence[j - 1], ticks, now, Nvs(OK, OK));
    }
  }

  /** After a reset at press `j` the presses that are left are too few. */
  lemma {:induction false} EnterAfterReset(s: State, j: nat, k: nat, ticks: uint32, now: uint32) returns (x: nat)
    requires Inv(s) && s.pairing.Some? && ticks <= s.pairing.value.deadline
    requires 1 <= j <= k <= SEQUENCE_LEN
    requires Enter(s, j, ticks, now).pairing == Some(s.pairing.value.(progress := 0))
    ensures x <= k - j && Enter(s, k, ticks, now).pairing == Some(s.pairing.value.(progress := x))
  {
    x := 0;
    if k > j {
      var y := EnterAfterReset(s, j, k - 1, ticks, now);
      x := if s.pairing.value.sequence[k - 1] == s.pairing.value.sequence[y] then y + 1 else 0;
      PressMoves(Enter(s, k - 1, ticks, now), s.pairing.value.sequence[k - 1], ticks, now, Nvs(OK, OK));
    }
  }

  lemma EnterMisfit(s: State, j: nat, ticks: uint32, now: uint32)
    requires Inv(s) && s.pairing.Some? && ticks <= s.pairing.value.deadline
    requires s.pairing.value.progress + j < SEQUENCE_LEN
    requires forall i :: 0 <= i < j ==>
               s.pairing.value.sequence[i] == s.pairing.value.sequence[s.pairing.value.progress + i]
    requires s.pairing.value.sequence[j] != s.pairing.value.sequence[s.pairing.value.progress + j]
    ensures !PairsDuring(s, ticks, now)
  {
    EnterWhileFits(s, j, ticks, now);
    forall k | 1 <= k <= SEQUENCE_LEN ensures Enter(s, k, ticks, now).pairing.Some? {
      if k <= j {
        EnterWhileFits(s, k, ticks, now);
      } else {
        var x := EnterAfterReset(s, j + 1, k, ticks, now);
      }
    }
  }

  /** Entering the right sequence pairs exactly when no earlier press counted, or when the
      presses that did fit the sequence shifted by them. A wrong press is not looked at
      again as a first press, so a right sequence after a false start can be missed. */
  lemma SequencePairsIff(s: State, ticks: uint32, now: uint32)
    requires Inv(s) && s.pairing.Some? && s.pairing.value.progress < SEQUENCE_LEN
    requires ticks <= s.pairing.value.deadline && StoreSlot(s.slots, s.pairing.value.clientId).Some?
    ensures PairsDuring(s, ticks, now) <==>
            Overlaps(s.pairing.value.sequence, s.pairing.value.progress)
  {
    var q, from := s.pairing.value.sequence, s.pairing.value.progress;
    if Overlaps(q, from) {
      var j := SEQUENCE_LEN - 1 - from;
      forall i | 0 <= i <= j ensures q[i] == q[from + i] {
        assert q[..SEQUENCE_LEN - from][i] == q[from..][i];
      }
      LastPressPairs(s, j, ticks, now);
    } else {
      var j := FirstMisfit(q, from, 0);
      EnterMisfit(s, j, ticks, now);
    }
  }

  lemma {:induction false} FirstMisfit(q: seq<byte>, from: nat, i: nat) returns (j: nat)
    requires |q| == SEQUENCE_LEN && from < SEQUENCE_LEN && !Overlaps(q, from)
    requires i <= SEQUENCE_LEN - from
    requires forall m :: 0 <= m < i ==> q[m] == q[from + m]
    ensures from + j < SEQUENCE_LEN && q[j] != q[from + j]
    ensures forall m :: 0 <= m < j ==> q[m] == q[from + m]
    decreases SEQUENCE_LEN - i
  {
    if i < SEQUENCE_LEN - from && q[i] == q[from + i] {
      j := FirstMisfit(q, from, i + 1);
    } else {
      j := i;
    }
  }

  // ----- A false start -----

  /** A pairing request for this client with the sequence 1, 1, 2, 3. */
  ghost function RequestEntries(name: byte, secret: seq<byte>): (entries: seq<T.Tlv>)
    requires |secret| == SECRET_LEN
    ensures T.Encodable(entries)
  {
    [T.Tlv(TLV_CLIENT_ID, [name]), T.Tlv(TLV_APP_NAME, [name]), T.Tlv(TLV_SHARED_SECRET, secret),
     T.Tlv(TLV_BUTTON_SEQUENCE, [1, 1, 2, 3])]
  }

  ghost function PairingRequest(name: byte, secret: seq<byte>): seq<byte>
    requires |secret| == SECRET_LEN
  {
    T.EncodeAll(RequestEntries(name, secret))
  }

  lemma RequestIsFound(name: byte, secret: seq<byte>)
    requires name != 0 && |secret| == SECRET_LEN
    ensures var payload := PairingRequest(name, secret);
            && FindText(payload, TLV_CLIENT_ID, CLIENT_ID_MAX_LEN) == Some([name])
            && FindText(payload, TLV_APP_NAME, APP_NAME_MAX_LEN) == Some([name])
            && FindValue(payload, TLV_SHARED_SECRET) == T.Some(secret)
            && FindValue(payload, TLV_BUTTON_SEQUENCE) == T.Some([1, 1, 2, 3])
  {
    var e := RequestEntries(name, secret);
    T.EntriesOfEncoded(e);
    assert T.Entries(PairingRequest(name, secret)) == e;
    FirstAmong(e, 0);
    FirstAmong(e, 1);
    FirstAmong(e, 2);
    FirstAmong(e, 3);
    OneLetter(name, CLIENT_ID_MAX_LEN);
    OneLetter(name, APP_NAME_MAX_LEN);
  }

  lemma OneLetter(letter: byte, maxLen: nat)
    requires letter != 0 && maxLen > 0
    ensures AsText([letter], maxLen) == [letter]
  {
    assert [letter][1..] == [] && UpToZero([letter]) == [letter] + UpToZero([]);
  }

  /** An entry of a kind that none before it has. */
  lemma {:induction false} FirstAmong(entries: seq<T.Tlv>, k: nat)
    requires k < |entries| && forall i :: 0 <= i < k ==> entries[i].kind != entries[k].kind
    ensures T.FirstOfKind(entries, entries[k].kind) == T.Some(entries[k].value)
  {
    if k > 0 {
      FirstAmong(entries[1..], k - 1);
    }
  }

  /** A press in time and with a working store. */
  ghost function Hit(s: State, button: byte, hmac: Hmac): State {
    Step(s, Button(button, 0, 0, Nvs(OK, OK)), hmac)
  }

  /** A pairing at its start, with room for its client. */
  ghost predicate AtStart(s: State) {
    && !s.authenticated && s.slots == NO_RECORDS && s.pairing.Some? && s.pairing.value.progress == 0
    && s.pairing.value.clientId != [] && s.pairing.value.sequence == [1, 1, 2, 3]
  }

  ghost function RightSequence(s: State, hmac: Hmac): State {
    Hit(Hit(Hit(Hit(s, 1, hmac), 1, hmac), 2, hmac), 3, hmac)
  }

  lemma RightStart(s: State, hmac: Hmac)
    requires AtStart(s)
    ensures RightSequence(s, hmac).authenticated
  {
    PressMoves(s, 1, 0, 0, Nvs(OK, OK));
    PressMoves(Hit(s, 1, hmac), 1, 0, 0, Nvs(OK, OK));
    PressMoves(Hit(Hit(s, 1, hmac), 1, hmac), 2, 0, 0, Nvs(OK, OK));
    LastPress(Hit(Hit(Hit(s, 1, hmac), 1, hmac), 2, hmac), hmac);
  }

  lemma LastPress(s: State, hmac: Hmac)
    requires s.slots == NO_RECORDS && s.pairing.Some? && s.pairing.value.progress == 3
    requires s.pairing.value.clientId != [] && s.pairing.value.sequence == [1, 1, 2, 3]
    ensures Hit(s, 3, hmac).authenticated
  {
    var free := FindFree(s.slots);
    assert s.slots[0].None?;
  }

  lemma WrongStart(s: State, hmac: Hmac)
    requires AtStart(s)
    ensures var late := RightSequence(Hit(s, 1, hmac), hmac);
            !late.authenticated && late.pairing == s.pairing
  {
    var s1 := Hit(s, 1, hmac);
    PressMoves(s, 1, 0, 0, Nvs(OK, OK));
    var s2 := Hit(s1, 1, hmac);
    PressMoves(s1, 1, 0, 0, Nvs(OK, OK));
    var s3 := Hit(s2, 1, hmac);
    PressMoves(s2, 1, 0, 0, Nvs(OK, OK));
    PressMoves(s3, 2, 0, 0, Nvs(OK, OK));
    PressMoves(Hit(s3, 2, hmac), 3, 0, 0, Nvs(OK, OK));
  }

  /** From power-up: a pairing with the sequence 1, 1, 2, 3, one press of 1 too many, then the
      whole right sequence. The link is not authenticated and the pairing stands at nothing;
      without the first press it is authenticated. */
  lemma FalseStartIsMissed(requestId: uint32, name: byte, secret: seq<byte>, hmac: Hmac)
    requires name != 0 && |secret| == SECRET_LEN
    ensures var begun := Step(START, PairBeginRequest(requestId, PairingRequest(name, secret), 0), hmac);
            && begun.pairing.Some? && begun.pairing.value.sequence == [1, 1, 2, 3]
            && RightSequence(begun, hmac).authenticated
            && !RightSequence(Hit(begun, 1, hmac), hmac).authenticated
            && RightSequence(Hit(begun, 1, hmac), hmac).pairing == begun.pairing
  {
    PairingBegins(requestId, name, secret, hmac);
    var begun := Step(START, PairBeginRequest(requestId, PairingRequest(name, secret), 0), hmac);
    RightStart(begun, hmac);
    WrongStart(begun, hmac);
  }

  lemma PairingBegins(requestId: uint32, name: byte, secret: seq<byte>, hmac: Hmac)
    requires name != 0 && |secret| == SECRET_LEN
    ensures AtStart(Step(START, PairBeginRequest(requestId, PairingRequest(name, secret), 0), hmac))
  {
    RequestIsFound(name, secret);
  }

  // ----- The firmware's handlers -----

  class Companion {
    const hmac: Hmac
    var slots: seq<Option<Record>>
    var trustedCount: nat
    var authenticated: bool
    var activeClientId: Text
    var challengePending: bool
    var authClientId: Text
    var authNonce: Nonce
    var pairing: Option<Pairing>
    ghost var presses: seq<byte>

    ghost predicate Valid()
      reads this
    {
      Inv(Now())
    }

    ghost function Now(): State
      reads this
    {
      State(slots, trustedCount, authenticated, activeClientId,
            if challengePending then Some((authClientId, authNonce)) else None, pairing, presses)
    }

    constructor (hmac: Hmac)
      ensures Valid() && Now() == START && this.hmac == hmac
    {
      this.hmac := hmac;
      slots, trustedCount := NO_RECORDS, 0;
      authenticated, activeClientId := false, [];
      challengePending, authClientId, authNonce := false, [], NO_NONCE;
      pairing, presses := None, [];
      new;
      NoRecordsCount();
    }

    method FindRecordSlot(clientId: Text) returns (slot: Option<nat>)
      ensures slot == FindRecord(slots, clientId)
    {
      if clientId == [] {
        return None;
      }
      for i := 0 to |slots|
        invariant FindRecord(slots[..i], clientId) == None
      {
        assert slots[..i + 1][..i] == slots[..i];
        if slots[i].Some? && slots[i].value.clientId == clientId {
          FindRecordPrefix(slots, clientId, i + 1);
          return Some(i);
        }
      }
      assert slots[..|slots|] == slots;
      return None;
    }

    method FindFreeSlot() returns (slot: Option<nat>)
      ensures slot == FindFree(slots)
    {
      for i := 0 to |slots|
        invariant FindFree(slots[..i]) == None
      {
        assert slots[..i + 1][..i] == slots[..i];
        if slots[i].None? {
          FindFreePrefix(slots, i + 1);
          return Some(i);
        }
      }
      assert slots[..|slots|] == slots;
      return None;
    }

    method CountTrustedClients() returns (count: nat)
      ensures count == CountTrusted(slots)
    {
      count := 0;
      for i := 0 to |slots|
        invariant count == CountTrusted(slots[..i])
      {
        assert slots[..i + 1][..i] == slots[..i];
        if slots[i].Some? {
          count := count + 1;
        }
      }
      assert slots[..|slots|] == slots;
    }

    method StoreRecord(record: Record, nvs: Nvs) returns (err: Err)
      modifies this`slots, this`trustedCount
      ensures (err, Now()) == Store(old(Now()), record, nvs)
    {
      if record.clientId == [] {
        return INVALID_ARG;
      }
      var slot := FindRecordSlot(record.clientId);
      if slot.None? {
        slot := FindFreeSlot();
      }
      if slot.None? {
        return NO_MEM;
      }
      if nvs.opens != OK {
        return nvs.opens;
      }
      if nvs.commits == OK {
        slots := slots[slot.value := Some(record)];
      }
      trustedCount := CountTrustedClients();
      return nvs.commits;
    }

    method ClearPairing()
      modifies this`pairing, this`presses
      ensures pairing == None && presses == []
    {
      pairing := None;
      presses := [];
    }

    method CompletePairing(now: uint32, nvs: Nvs) returns (err: Err)
      modifies this`slots, this`trustedCount, this`authenticated, this`activeClientId, this`pairing, this`presses
      ensures (err, Now()) == Complete(old(Now()), now, nvs)
    {
      if pairing.None? {
        return INVALID_STATE;
      }
      var p := pairing.value;
      err := StoreRecord(Record(p.clientId, p.appName, p.secret, now), nvs);
      if err != OK {
        return err;
      }
      authenticated := true;
      activeClientId := p.clientId;
      ClearPairing();
    }

    method ApplyPairingButton(button: byte, ticks: uint32, now: uint32, nvs: Nvs) returns (err: Err)
      requires Valid()
      modifies this
      ensures Valid() && (err, Now()) == Press(old(Now()), button, ticks, now, nvs)
    {
      PressKeepsInv(Now(), button, ticks, now, nvs);
      if pairing.None? || pairing.value.progress >= SEQUENCE_LEN {
        return INVALID_STATE;
      }
      if ticks > pairing.value.deadline {
        ClearPairing();
        return TIMEOUT;
      }
      presses := presses + [button];
      if button != pairing.value.sequence[pairing.value.progress] {
        pairing := Some(pairing.value.(progress := 0));
        return INVALID_ARG;
      }
      pairing := Some(pairing.value.(progress := pairing.value.progress + 1));
      if pairing.value.progress >= SEQUENCE_LEN {
        err := CompletePairing(now, nvs);
        return err;
      }
      return OK;
    }

    method HandlePairBegin(requestId: uint32, payload: seq<byte>, ticks: uint32) returns (err: Err)
      modifies this`pairing, this`presses
      ensures (err, Now()) == PairBegin(old(Now()), requestId, payload, ticks)
    {
      var clientId := T.FindTlv(payload, TLV_CLIENT_ID);
      var appName := T.FindTlv(payload, TLV_APP_NAME);
      var secret := T.FindTlv(payload, TLV_SHARED_SECRET);
      var sequence := T.FindTlv(payload, TLV_BUTTON_SEQUENCE);
      if clientId.None? || appName.None? || secret.None? || sequence.None? ||
         |secret.value| != SECRET_LEN || |sequence.value| != SEQUENCE_LEN ||
         AsText(clientId.value, CLIENT_ID_MAX_LEN) == []
      {
        return INVALID_ARG;
      }
      for i := 0 to SEQUENCE_LEN
        invariant forall k :: 0 <= k < i ==> sequence.value[k] < HID_BUTTON_COUNT
      {
        if sequence.value[i] >= HID_BUTTON_COUNT {
          return INVALID_ARG;
        }
      }
      ClearPairing();
      var deadline: uint32 := (ticks + PAIRING_TIMEOUT_TICKS) % 0x1_0000_0000;
      pairing := Some(Pairing(AsText(clientId.value, CLIENT_ID_MAX_LEN), AsText(appName.value, APP_NAME_MAX_LEN),
                              secret.value, sequence.value, requestId, deadline, 0));
      return OK;
    }

    method HandleAuthChallenge(payload: seq<byte>, nonce: Nonce) returns (err: Err)
      modifies this`challengePending, this`authClientId, this`authNonce
      ensures (err, Now()) == Challenge(old(Now()), payload, nonce)
    {
      var clientId := T.FindTlv(payload, TLV_CLIENT_ID);
      if clientId.None? {
        return NOT_FOUND;
      }
      var slot := FindRecordSlot(AsText(clientId.value, CLIENT_ID_MAX_LEN));
      if slot.None? {
        return NOT_FOUND;
      }
      authNonce := nonce;
      authClientId := AsText(clientId.value, CLIENT_ID_MAX_LEN);
      challengePending := true;
      return OK;
    }

    method HandleAuthProof(payload: seq<byte>) returns (accepted: bool)
      modifies this`authenticated, this`challengePending, this`activeClientId
      ensures accepted == ProofHolds(old(Now()), payload, hmac)
      ensures Now() == Prove(old(Now()), payload, hmac)
    {
      if !challengePending {
        return false;
      }
      var clientId := T.FindTlv(payload, TLV_CLIENT_ID);
      if clientId.None? || AsText(clientId.value, CLIENT_ID_MAX_LEN) != authClientId {
        return false;
      }
      var provided := T.FindTlv(payload, TLV_AUTH_HMAC);
      if provided.None? || |provided.value| != HMAC_LEN {
        return false;
      }
      var slot := FindRecordSlot(authClientId);
      if slot.None? {
        return false;
      }
      var expected := hmac(slots[slot.value].value.secret, authNonce);
      if expected.None? || expected.value != provided.value {
        return false;
      }
      authenticated := true;
      challengePending := false;
      activeClientId := authClientId;
      return true;
    }

    method RevokeClient(clientId: Text, nvs: Nvs) returns (err: Err)
      modifies this`slots, this`trustedCount, this`authenticated, this`activeClientId
      ensures (err, Now()) == Revoke(old(Now()), clientId, nvs)
    {
      var slot := FindRecordSlot(clientId);
      if slot.None? {
        return NOT_FOUND;
      }
      if nvs.opens != OK {
        return nvs.opens;
      }
      if nvs.commits == OK {
        slots := slots[slot.value := None];
        if activeClientId == clientId {
          authenticated := false;
          activeClientId := [];
        }
      }
      trustedCount := CountTrustedClients();
      return nvs.commits;
    }

    method RevokeAllClients(nvs: Nvs) returns (err: Err)
      modifies this`slots, this`trustedCount, this`authenticated, this`activeClientId
      ensures (err, Now()) == RevokeAll(old(Now()), nvs)
    {
      if nvs.opens != OK {
        return nvs.opens;
      }
      if nvs.commits != OK {
        return nvs.commits;
      }
      slots := NO_RECORDS;
      NoRecordsCount();
      authenticated := false;
      activeClientId := [];
      trustedCount := CountTrustedClients();
      return OK;
    }

    /** The requests of the link. */
    method HandleRequest(msg: Msg)
      requires Valid() && IsRequest(msg)
      modifies this
      ensures Now() == Step(old(Now()), msg, hmac)
    {
      match msg {
        case PairBeginRequest(requestId, payload, ticks) =>
          var _ := HandlePairBegin(requestId, payload, ticks);
        case PairCancelRequest =>
          ClearPairing();
        case ChallengeRequest(payload, nonce) =>
          var _ := HandleAuthChallenge(payload, nonce);
        case ProofRequest(payload) =>
          var _ := HandleAuthProof(payload);
        case RevokeRequest(payload, nvs) =>
          var clientId := T.FindTlv(payload, TLV_CLIENT_ID);
          if authenticated && clientId.Some? {
            var _ := RevokeClient(AsText(clientId.value, CLIENT_ID_MAX_LEN), nvs);
          }
      }
    }

    /** The service task's dispatch. */
    method ProcessMsg(msg: Msg)
      requires Valid()
      modifies this
      ensures Valid() && Now() == Step(old(Now()), msg, hmac)
    {
      StepKeepsInv(Now(), msg, hmac);
      if IsRequest(msg) {
        HandleRequest(msg);
        return;
      }
      match msg {
        case Button(button, ticks, now, nvs) =>
          var _ := ApplyPairingButton(button, ticks, now, nvs);
        case ConsoleConfirm(now, nvs) =>
          var _ := CompletePairing(now, nvs);
        case ConsoleCancel =>
          ClearPairing();
        case ConsoleRevoke(clientId, nvs) =>
          var _ := RevokeClient(clientId, nvs);
        case ConsoleRevokeAll(nvs) =>
          var _ := RevokeAllClients(nvs);
        case LinkConnected =>
        case LinkDisconnected =>
          authenticated := false;
          challengePending := false;
          activeClientId := [];
        case Heartbeat(ticks) =>
          if pairing.Some? && ticks > pairing.value.deadline {
            ClearPairing();
          }
      }
    }
  }

  lemma {:induction false} FindRecordPrefix(slots: seq<Option<Record>>, clientId: Text, n: nat)
    requires n <= |slots| && FindRecord(slots[..n], clientId).Some?
    ensures FindRecord(slots, clientId) == FindRecord(slots[..n], clientId)
    decreases |slots|
  {
    if n == |slots| {
      assert slots[..n] == slots;
    } else {
      var before := slots[..|slots| - 1];
      assert before[..n] == slots[..n];
      FindRecordPrefix(before, clientId, n);
    }
  }

  lemma {:induction false} FindFreePrefix(slots: seq<Option<Record>>, n: nat)
    requires n <= |slots| && FindFree(slots[..n]).Some?
    ensures FindFree(slots) == FindFree(slots[..n])
    decreases |slots|
  {
    if n == |slots| {
      assert slots[..n] == slots;
    } else {
      var before := slots[..|slots| - 1];
      assert before[..n] == slots[..n];
      FindFreePrefix(before, n);
    }
  }
}
