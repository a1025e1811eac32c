/** What pairing, proof and revocation mean for a client: who is trusted, for whom the link
    speaks, and how a client comes in and stays out. */
module CompanionTrust {
  import opened Bytes
  import opened Esp
  import T = CompanionTlv
  import opened CompanionAuth

  // ----- Records -----

  /** The record kept of a client. */
  ghost function TrustedAs(slots: seq<Option<Record>>, clientId: Text): (record: Option<Record>)
    ensures record.Some? ==> record.value.clientId == clientId
  {
    var slot := FindRecord(slots, clientId);
    if slot.None? then None else slots[slot.value]
  }

  lemma RecordAt(slots: seq<Option<Record>>, i: nat)
    requires DistinctIds(slots) && i < |slots| && slots[i].Some?
    ensures FindRecord(slots, slots[i].value.clientId) == Some(i)
    ensures TrustedAs(slots, slots[i].value.clientId) == slots[i]
  {
    var found := FindRecord(slots, slots[i].value.clientId);
    assert found.Some?;
  }

  lemma StoredIsTrusted(slots: seq<Option<Record>>, clientId: Text)
    requires DistinctIds(slots)
    ensures Stored(slots, clientId) <==> TrustedAs(slots, clientId).Some?
    ensures Stored(slots, clientId) <==> FindRecord(slots, clientId).Some?
  {
    if Stored(slots, clientId) {
      var i :| 0 <= i < |slots| && slots[i].Some? && slots[i].value.clientId == clientId;
      RecordAt(slots, i);
    }
  }

  /** The record of no client but one has changed. */
  ghost predicate OthersKept(before: seq<Option<Record>>, after: seq<Option<Record>>, clientId: Text) {
    forall id :: id != clientId ==> TrustedAs(after, id) == TrustedAs(before, id)
  }

  lemma UpdateKeepsOthers(slots: seq<Option<Record>>, slot: nat, record: Option<Record>, clientId: Text)
    requires DistinctIds(slots) && slot < |slots| && DistinctIds(slots[slot := record])
    requires slots[slot].Some? ==> slots[slot].value.clientId == clientId
    requires record.Some? ==> record.value.clientId == clientId
    ensures OthersKept(slots, slots[slot := record], clientId)
  {
    var after := slots[slot := record];
    forall id | id != clientId ensures TrustedAs(after, id) == TrustedAs(slots, id) {
      var was := FindRecord(slots, id);
      if was.Some? {
        assert after[was.value] == slots[was.value];
        RecordAt(after, was.value);
      }
    }
  }

  ghost predicate HasFreeSlot(slots: seq<Option<Record>>) {
    exists i :: 0 <= i < |slots| && slots[i].None?
  }

  /** Storing succeeds exactly when the client has a slot or one is free and the store works;
      then the record kept of it is this one, and otherwise nothing has changed. */
  lemma StoreRemembers(s: State, record: Record, nvs: Nvs)
    requires Inv(s) && record.clientId != []
    ensures var (err, t) := Store(s, record, nvs);
            && (err == OK <==>
                  (Stored(s.slots, record.clientId) || HasFreeSlot(s.slots)) && nvs.opens == OK && nvs.commits == OK)
            && (err == OK ==> TrustedAs(t.slots, record.clientId) == Some(record) &&
                              OthersKept(s.slots, t.slots, record.clientId))
            && (err != OK ==> t.slots == s.slots)
            && Speaker(t) == Speaker(s) && t.pairing == s.pairing && t.challenge == s.challenge
  {
    StoredIsTrusted(s.slots, record.clientId);
    var slot := StoreSlot(s.slots, record.clientId);
    if slot.Some? {
      var after := s.slots[slot.value := Some(record)];
      StoreKeepsDistinct(s.slots, record, slot.value);
      RecordAt(after, slot.value);
      UpdateKeepsOthers(s.slots, slot.value, Some(record), record.clientId);
      if FindRecord(s.slots, record.clientId).None? {
        assert s.slots[slot.value].None?;
      }
    }
  }

  // ----- Revocation -----

  /** The client is gone, all others are as before, and the link does not speak for it. */
  ghost predicate Gone(s: State, t: State, clientId: Text) {
    && !Stored(t.slots, clientId) && OthersKept(s.slots, t.slots, clientId)
    && Speaker(t) == (if Speaker(s) == Some(clientId) then None else Speaker(s))
  }

  /** Nothing that matters to trust has changed. */
  ghost predicate TrustUnchanged(s: State, t: State) {
    t.slots == s.slots && Speaker(t) == Speaker(s) && t.pairing == s.pairing && t.challenge == s.challenge
  }

  ghost predicate Works(nvs: Nvs) {
    nvs.opens == OK && nvs.commits == OK
  }

  /** A revocation succeeds exactly when the client is stored and the store works; then it is
      gone, and otherwise nothing has changed. */
  lemma RevokedClientIsGone(s: State, clientId: Text, nvs: Nvs)
    requires Inv(s)
    ensures var (err, t) := Revoke(s, clientId, nvs);
            && (err == OK <==> Stored(s.slots, clientId) && Works(nvs))
            && (if err == OK then Gone(s, t, clientId) else TrustUnchanged(s, t))
            && t.pairing == s.pairing && t.challenge == s.challenge
  {
    StoredIsTrusted(s.slots, clientId);
    var slot := FindRecord(s.slots, clientId);
    if slot.Some? {
      var after := s.slots[slot.value := None];
      forall i | 0 <= i < |after| && after[i].Some? ensures after[i].value.clientId != clientId {
        assert after[i] == s.slots[i];
      }
      UpdateKeepsOthers(s.slots, slot.value, None, clientId);
    }
  }

  /** Revoking all succeeds exactly when the store works; then no record is left and the link
      speaks for nobody. */
  lemma RevokedAllAreGone(s: State, nvs: Nvs)
    requires Inv(s)
    ensures var (err, t) := RevokeAll(s, nvs);
            && (err == OK <==> Works(nvs))
            && (if err == OK then Speaker(t) == None && forall id :: !Stored(t.slots, id) else TrustUnchanged(s, t))
            && t.pairing == s.pairing && t.challenge == s.challenge
  {
  }

  /** This message asks to revoke this client; over the link only an authenticated one may. */
  ghost predicate Revokes(s: State, msg: Msg, clientId: Text) {
    || (msg.ConsoleRevoke? && msg.clientId == clientId)
    || (msg.RevokeRequest? && s.authenticated &&
        FindText(msg.payload, TLV_CLIENT_ID, CLIENT_ID_MAX_LEN) == Some(clientId))
  }

  /** So for the messages that ask for it. */
  lemma StepRevokes(s: State, msg: Msg, hmac: Hmac, clientId: Text)
    requires Inv(s) && Revokes(s, msg, clientId)
    ensures var t := Step(s, msg, hmac);
            if Stored(s.slots, clientId) && Works(msg.nvs) then Gone(s, t, clientId) else TrustUnchanged(s, t)
  {
    RevokedClientIsGone(s, clientId, msg.nvs);
  }

  /** Without authentication the link revokes nobody. */
  lemma StrangerRevokesNobody(s: State, msg: Msg, hmac: Hmac)
    requires msg.RevokeRequest? && !s.authenticated
    ensures Step(s, msg, hmac) == s
  {
  }

  lemma StepRevokesAll(s: State, nvs: Nvs, hmac: Hmac)
    requires Inv(s)
    ensures var t := Step(s, ConsoleRevokeAll(nvs), hmac);
            if Works(nvs) then Speaker(t) == None && forall id :: !Stored(t.slots, id) else TrustUnchanged(s, t)
  {
    RevokedAllAreGone(s, nvs);
  }

  // ----- Coming in -----

  /** This message proves that the sender knows the secret of a trusted client: it answers the
      pending challenge with the HMAC of its nonce under that secret. */
  ghost predicate ProvesSecret(s: State, msg: Msg, hmac: Hmac, clientId: Text) {
    && msg.ProofRequest? && s.challenge.Some? && s.challenge.value.0 == clientId
    && TrustedAs(s.slots, clientId).Some?
    && var answer := T.FirstOfKind(T.Entries(msg.payload), TLV_AUTH_HMAC);
    && answer.Some? && |answer.value| == HMAC_LEN
    && hmac(TrustedAs(s.slots, clientId).value.secret, s.challenge.value.1) == Some(answer.value)
  }

  /** This message completes the pairing of this client, by hand or as the last press of its
      sequence in time. */
  ghost predicate MayPair(s: State, msg: Msg, clientId: Text) {
    && s.pairing.Some? && s.pairing.value.clientId == clientId
    && (msg.ConsoleConfirm? ||
        (msg.Button? && msg.ticks <= s.pairing.value.deadline && s.pairing.value.progress == SEQUENCE_LEN - 1 &&
         |s.pairing.value.sequence| == SEQUENCE_LEN && msg.button == s.pairing.value.sequence[SEQUENCE_LEN - 1]))
  }

  /** The record of the pairing. */
  ghost function PairedRecord(p: Pairing, now: uint32): Record {
    Record(p.clientId, p.appName, p.secret, now)
  }

  lemma CompletedPairing(s: State, now: uint32, nvs: Nvs)
    requires Inv(s) && s.pairing.Some?
    ensures var (err, t) := Complete(s, now, nvs);
            var p := s.pairing.value;
            && (err == OK <==> (Stored(s.slots, p.clientId) || HasFreeSlot(s.slots)) && Works(nvs))
            && (if err == OK then Speaker(t) == Some(p.clientId) && t.pairing == None &&
                                  TrustedAs(t.slots, p.clientId) == Some(PairedRecord(p, now)) &&
                                  OthersKept(s.slots, t.slots, p.clientId)
                else TrustUnchanged(s, t))
            && t.challenge == s.challenge
  {
    StoreRemembers(s, PairedRecord(s.pairing.value, now), nvs);
  }

  /** The link comes to speak for a client only by a proof of its secret or by its pairing,
      and then its record is that of the pairing. */
  lemma OnlySecretOrPairingAuthenticates(s: State, msg: Msg, hmac: Hmac, clientId: Text)
    requires Inv(s) && Speaker(s) != Some(clientId) && Speaker(Step(s, msg, hmac)) == Some(clientId)
    ensures ProvesSecret(s, msg, hmac, clientId) || MayPair(s, msg, clientId)
    ensures !msg.ProofRequest? ==>
              TrustedAs(Step(s, msg, hmac).slots, clientId) == Some(PairedRecord(s.pairing.value, msg.now))
  {
    match msg
    case Button(button, ticks, now, nvs) =>
      var p := s.pairing.value;
      if button == p.sequence[p.progress] {
        FittingPressKeepsInv(s, button);
        CompletedPairing(Grown(s, button), now, nvs);
      }
    case ConsoleConfirm(now, nvs) => CompletedPairing(s, now, nvs);
    case _ =>
  }

  /** No record is made but by a pairing. */
  lemma OnlyPairingStores(s: State, msg: Msg, hmac: Hmac, clientId: Text)
    requires Inv(s) && !Stored(s.slots, clientId) && !MayPair(s, msg, clientId)
    ensures !Stored(Step(s, msg, hmac).slots, clientId)
  {
    StoredIsTrusted(s.slots, clientId);
    StepKeepsInv(s, msg, hmac);
    StoredIsTrusted(Step(s, msg, hmac).slots, clientId);
    match msg
    case Button(button, ticks, now, nvs) =>
      if s.pairing.Some? && s.pairing.value.progress < SEQUENCE_LEN && ticks <= s.pairing.value.deadline &&
         button == s.pairing.value.sequence[s.pairing.value.progress]
      {
        FittingPressKeepsInv(s, button);
        CompletedPairing(Grown(s, button), now, nvs);
      }
    case ConsoleConfirm(now, nvs) =>
      if s.pairing.Some? {
        CompletedPairing(s, now, nvs);
      }
    case ConsoleRevoke(id, nvs) => RevokedClientIsGone(s, id, nvs);
    case RevokeRequest(payload, nvs) =>
      var id := FindText(payload, TLV_CLIENT_ID, CLIENT_ID_MAX_LEN);
      if s.authenticated && id.Some? {
        RevokedClientIsGone(s, id.value, nvs);
      }
    case _ =>
  }

  /** No message from `j` on and before `k` may pair this client. */
  ghost predicate NeverPaired(states: seq<State>, msgs: seq<Msg>, j: nat, k: nat, clientId: Text)
    requires k < |states| == |msgs| + 1
  {
    forall i :: j <= i < k ==> !PairsAt(states, msgs, i, clientId)
  }

  ghost predicate PairsAt(states: seq<State>, msgs: seq<Msg>, i: nat, clientId: Text)
    requires i < |msgs| < |states|
  {
    MayPair(states[i], msgs[i], clientId)
  }

  /** A client that is not trusted stays out on every run until it is paired again: it is never
      stored, and the link never speaks for it. */
  lemma {:induction false} RevokedStaysOut(states: seq<State>, msgs: seq<Msg>, hmac: Hmac, j: nat, k: nat, clientId: Text)
    requires IsRun(states, msgs, hmac) && j <= k < |states|
    requires !Stored(states[j].slots, clientId) && NeverPaired(states, msgs, j, k, clientId)
    ensures !Stored(states[k].slots, clientId) && Speaker(states[k]) != Some(clientId)
  {
    RunKeepsInv(states, msgs, hmac, k);
    if j < k {
      RunKeepsInv(states, msgs, hmac, k - 1);
      assert !PairsAt(states, msgs, k - 1, clientId);
      RevokedStaysOut(states, msgs, hmac, j, k - 1, clientId);
      assert states[k - 1 + 1] == Step(states[k - 1], msgs[k - 1], hmac);
      OnlyPairingStores(states[k - 1], msgs[k - 1], hmac, clientId);
    }
  }

  // ----- What a request says -----

  /** Text the wire carries unchanged. */
  ghost predicate IsText(text: Text, maxLen: nat) {
    0 < |text| <= maxLen <= 0xFFFF && 0 !in text
  }

  lemma {:induction false} TextReads(text: Text)
    requires 0 !in text
    ensures UpToZero(text) == text
  {
    if text != [] {
      TextReads(text[1..]);
      assert text == [text[0]] + text[1..];
    }
  }

  /** The four fields of a pairing request. */
  ghost function RequestOf(clientId: seq<byte>, appName: seq<byte>, secret: seq<byte>, sequence: seq<byte>): seq<T.Tlv> {
    [T.Tlv(TLV_CLIENT_ID, clientId), T.Tlv(TLV_APP_NAME, appName), T.Tlv(TLV_SHARED_SECRET, secret),
     T.Tlv(TLV_BUTTON_SEQUENCE, sequence)]
  }

  lemma RequestFields(clientId: seq<byte>, appName: seq<byte>, secret: seq<byte>, sequence: seq<byte>)
    requires T.Encodable(RequestOf(clientId, appName, secret, sequence))
    ensures var payload := T.EncodeAll(RequestOf(clientId, appName, secret, sequence));
            && FindValue(payload, TLV_CLIENT_ID) == T.Some(clientId) && FindValue(payload, TLV_APP_NAME) == T.Some(appName)
            && FindValue(payload, TLV_SHARED_SECRET) == T.Some(secret)
            && FindValue(payload, TLV_BUTTON_SEQUENCE) == T.Some(sequence)
  {
    var e := RequestOf(clientId, appName, secret, sequence);
    T.EntriesOfEncoded(e);
    FirstAmong(e, 0);
    FirstAmong(e, 1);
    FirstAmong(e, 2);
    FirstAmong(e, 3);
  }

  /** The fields make a pairing. */
  ghost predicate GoodRequest(clientId: seq<byte>, secret: seq<byte>, sequence: seq<byte>) {
    && AsText(clientId, CLIENT_ID_MAX_LEN) != [] && |secret| == 32 && |sequence| == 4
    && sequence[0] < 6 && sequence[1] < 6 && sequence[2] < 6 && sequence[3] < 6
  }

  /** A pairing request is accepted exactly when its fields make a pairing; what is pending then
      is those fields, two minutes of ticks and no progress. */
  lemma PairingIsAsRequested(s: State, requestId: uint32, clientId: seq<byte>, appName: seq<byte>, secret: seq<byte>,
                             sequence: seq<byte>, ticks: uint32)
    requires T.Encodable(RequestOf(clientId, appName, secret, sequence))
    ensures PairBegin(s, requestId, T.EncodeAll(RequestOf(clientId, appName, secret, sequence)), ticks) ==
            if GoodRequest(clientId, secret, sequence)
            then (OK, s.(presses := [],
                         pairing := Some(Pairing(AsText(clientId, 36), AsText(appName, 32), secret, sequence, requestId,
                                                 (ticks as nat + 12000) % 0x1_0000_0000, 0))))
            else (INVALID_ARG, s)
  {
    RequestFields(clientId, appName, secret, sequence);
  }

  lemma AbsentIsNotFound(entries: seq<T.Tlv>, kind: uint16)
    requires T.Encodable(entries) && forall i :: 0 <= i < |entries| ==> entries[i].kind != kind
    ensures FindValue(T.EncodeAll(entries), kind) == T.None
  {
    T.EntriesOfEncoded(entries);
    var i := T.FirstOfKindIsFirst(entries, kind);
  }

  lemma UnfoundIsRefused(s: State, requestId: uint32, payload: seq<byte>, kind: uint16, ticks: uint32)
    requires TLV_CLIENT_ID <= kind <= TLV_BUTTON_SEQUENCE && FindValue(payload, kind) == T.None
    ensures PairBegin(s, requestId, payload, ticks) == (INVALID_ARG, s)
  {
  }

  /** A request without one of the four fields is refused. */
  lemma MissingFieldIsRefused(s: State, requestId: uint32, entries: seq<T.Tlv>, kind: uint16, ticks: uint32)
    requires T.Encodable(entries) && TLV_CLIENT_ID <= kind <= TLV_BUTTON_SEQUENCE
    requires forall i :: 0 <= i < |entries| ==> entries[i].kind != kind
    ensures PairBegin(s, requestId, T.EncodeAll(entries), ticks) == (INVALID_ARG, s)
  {
    AbsentIsNotFound(entries, kind);
    UnfoundIsRefused(s, requestId, T.EncodeAll(entries), kind, ticks);
  }

  // ----- Proofs -----

  ghost function IdEntry(clientId: seq<byte>): seq<T.Tlv> {
    [T.Tlv(TLV_CLIENT_ID, clientId)]
  }

  ghost function ProofEntries(clientId: seq<byte>, answer: seq<byte>): seq<T.Tlv> {
    [T.Tlv(TLV_CLIENT_ID, clientId), T.Tlv(TLV_AUTH_HMAC, answer)]
  }

  lemma IdIsRead(clientId: Text)
    requires IsText(clientId, CLIENT_ID_MAX_LEN)
    ensures FindText(T.EncodeAll(IdEntry(clientId)), TLV_CLIENT_ID, CLIENT_ID_MAX_LEN) == Some(clientId)
  {
    T.EntriesOfEncoded(IdEntry(clientId));
    FirstAmong(IdEntry(clientId), 0);
    TextReads(clientId);
  }

  lemma ProofIsRead(clientId: Text, answer: seq<byte>)
    requires IsText(clientId, CLIENT_ID_MAX_LEN) && |answer| <= 0xFFFF
    ensures var payload := T.EncodeAll(ProofEntries(clientId, answer));
            && FindText(payload, TLV_CLIENT_ID, CLIENT_ID_MAX_LEN) == Some(clientId)
            && FindValue(payload, TLV_AUTH_HMAC) == T.Some(answer)
  {
    var e := ProofEntries(clientId, answer);
    T.EntriesOfEncoded(e);
    FirstAmong(e, 0);
    FirstAmong(e, 1);
    TextReads(clientId);
  }

  /** A client is challenged exactly when it is trusted. */
  lemma OnlyTrustedAreChallenged(s: State, clientId: Text, nonce: Nonce, hmac: Hmac)
    requires Inv(s) && IsText(clientId, CLIENT_ID_MAX_LEN)
    ensures Step(s, ChallengeRequest(T.EncodeAll(IdEntry(clientId)), nonce), hmac) ==
            if Stored(s.slots, clientId) then s.(challenge := Some((clientId, nonce))) else s
  {
    IdIsRead(clientId);
    StoredIsTrusted(s.slots, clientId);
  }

  /** A proof by the challenged client is accepted exactly when it is trusted and the answer is
      the HMAC of the pending nonce under its secret; nothing changes otherwise. */
  lemma ProofDecides(s: State, clientId: Text, answer: seq<byte>, hmac: Hmac)
    requires Inv(s) && IsText(clientId, CLIENT_ID_MAX_LEN) && |answer| <= 0xFFFF
    ensures Step(s, ProofRequest(T.EncodeAll(ProofEntries(clientId, answer))), hmac) ==
            if s.challenge.Some? && s.challenge.value.0 == clientId && Stored(s.slots, clientId) && |answer| == 32 &&
               hmac(TrustedAs(s.slots, clientId).value.secret, s.challenge.value.1) == Some(answer)
            then s.(authenticated := true, activeClientId := clientId, challenge := None)
            else s
  {
    ProofIsRead(clientId, answer);
    StoredIsTrusted(s.slots, clientId);
  }

  /** A trusted client that knows its secret comes in, in two messages. */
  lemma TrustedClientComesIn(s: State, clientId: Text, nonce: Nonce, answer: seq<byte>, hmac: Hmac)
    requires Inv(s) && IsText(clientId, CLIENT_ID_MAX_LEN) && Stored(s.slots, clientId) && |answer| == 32
    requires TrustedAs(s.slots, clientId).Some?
    requires hmac(TrustedAs(s.slots, clientId).value.secret, nonce) == Some(answer)
    ensures var t := Step(s, ChallengeRequest(T.EncodeAll(IdEntry(clientId)), nonce), hmac);
            Speaker(Step(t, ProofRequest(T.EncodeAll(ProofEntries(clientId, answer))), hmac)) == Some(clientId)
  {
    var challenge := ChallengeRequest(T.EncodeAll(IdEntry(clientId)), nonce);
    OnlyTrustedAreChallenged(s, clientId, nonce, hmac);
    StepKeepsInv(s, challenge, hmac);
    ProofDecides(Step(s, challenge, hmac), clientId, answer, hmac);
  }

  // ----- The link and the clock -----

  /** A link that goes down ends authentication and the pending challenge, and nothing else. */
  lemma DisconnectEndsAuthentication(s: State, hmac: Hmac)
    ensures var t := Step(s, LinkDisconnected, hmac);
            Speaker(t) == None && t.challenge == None && t.slots == s.slots && t.pairing == s.pairing
  {
  }

  /** A pairing past its deadline is given up by the next press or heartbeat; one in time is kept
      by a heartbeat. Neither changes whom the link trusts or speaks for. */
  lemma LatePairingIsGivenUp(s: State, button: byte, ticks: uint32, now: uint32, nvs: Nvs, hmac: Hmac)
    requires Inv(s) && s.pairing.Some? && s.pairing.value.progress < SEQUENCE_LEN
    ensures var late := ticks > s.pairing.value.deadline;
            && Step(s, Heartbeat(ticks), hmac) == (if late then s.(pairing := None, presses := []) else s)
            && (late ==> Step(s, Button(button, ticks, now, nvs), hmac) == s.(pairing := None, presses := []))
  {
  }

  /** A confirmation at the console completes a pending pairing as its last press would, and
      without one changes nothing. */
  lemma ConfirmCompletesPairing(s: State, now: uint32, nvs: Nvs, hmac: Hmac)
    requires Inv(s)
    ensures var t := Step(s, ConsoleConfirm(now, nvs), hmac);
            if s.pairing.None? then t == s
            else
              var p := s.pairing.value;
              if (Stored(s.slots, p.clientId) || HasFreeSlot(s.slots)) && Works(nvs)
              then Speaker(t) == Some(p.clientId) && t.pairing == None &&
                   TrustedAs(t.slots, p.clientId) == Some(PairedRecord(p, now)) && OthersKept(s.slots, t.slots, p.clientId)
              else TrustUnchanged(s, t)
  {
    if s.pairing.Some? {
      CompletedPairing(s, now, nvs);
    }
  }

  /** Cancelling, by request or at the console, ends the pairing and nothing else; a link that
      comes up changes nothing. */
  lemma CancelEndsPairing(s: State, hmac: Hmac)
    ensures Step(s, PairCancelRequest, hmac) == Step(s, ConsoleCancel, hmac) == s.(pairing := None, presses := [])
    ensures Step(s, LinkConnected, hmac) == s
  {
  }

  /** When the last press finds no room or the store fails, the pairing stays pending with all its
      presses counted: further presses are ignored, and only the console can complete it. */
  lemma FailedStoreKeepsPairing(s: State, button: byte, ticks: uint32, now: uint32, nvs: Nvs, hmac: Hmac)
    requires Inv(s) && s.pairing.Some? && ticks <= s.pairing.value.deadline
    requires s.pairing.value.progress == SEQUENCE_LEN - 1 && button == s.pairing.value.sequence[SEQUENCE_LEN - 1]
    requires !((Stored(s.slots, s.pairing.value.clientId) || HasFreeSlot(s.slots)) && Works(nvs))
    ensures var t := Step(s, Button(button, ticks, now, nvs), hmac);
            && t.slots == s.slots && Speaker(t) == Speaker(s) && t.challenge == s.challenge
            && t.pairing == Some(s.pairing.value.(progress := SEQUENCE_LEN))
            && forall b, later, n, m :: Step(t, Button(b, later, n, m), hmac) == t
  {
    FittingPressKeepsInv(s, button);
    CompletedPairing(Grown(s, button), now, nvs);
  }

  // ----- From pairing to proof -----

  /** The four presses of a pairing's sequence. */
  ghost function Presses(s: State, sequence: seq<byte>, ticks: uint32, now: uint32, hmac: Hmac, k: nat): State
    requires k <= 4 == |sequence|
  {
    if k == 0 then s
    else Step(Presses(s, sequence, ticks, now, hmac, k - 1), Button(sequence[k - 1], ticks, now, Nvs(OK, OK)), hmac)
  }

  lemma {:induction false} PressesMove(s: State, ticks: uint32, now: uint32, hmac: Hmac, k: nat)
    requires Inv(s) && s.pairing.Some? && s.pairing.value.progress == 0 && ticks <= s.pairing.value.deadline && k < 4
    ensures var t := Presses(s, s.pairing.value.sequence, ticks, now, hmac, k);
            Inv(t) && t.slots == s.slots && t.pairing == Some(s.pairing.value.(progress := k))
  {
    if k > 0 {
      PressesMove(s, ticks, now, hmac, k - 1);
      var t := Presses(s, s.pairing.value.sequence, ticks, now, hmac, k - 1);
      var msg := Button(s.pairing.value.sequence[k - 1], ticks, now, Nvs(OK, OK));
      StepKeepsInv(t, msg, hmac);
      PressMoves(t, msg.button, ticks, now, Nvs(OK, OK));
    }
  }

  lemma LastPressCompletes(s: State, ticks: uint32, now: uint32, hmac: Hmac)
    requires Inv(s) && s.pairing.Some? && s.pairing.value.progress == 3 && ticks <= s.pairing.value.deadline
    requires Stored(s.slots, s.pairing.value.clientId) || HasFreeSlot(s.slots)
    ensures var p := s.pairing.value;
            var t := Step(s, Button(p.sequence[3], ticks, now, Nvs(OK, OK)), hmac);
            Inv(t) && Speaker(t) == Some(p.clientId) && TrustedAs(t.slots, p.clientId) == Some(PairedRecord(p, now))
  {
    var p := s.pairing.value;
    StepKeepsInv(s, Button(p.sequence[3], ticks, now, Nvs(OK, OK)), hmac);
    FittingPressKeepsInv(s, p.sequence[3]);
    CompletedPairing(Grown(s, p.sequence[3]), now, Nvs(OK, OK));
  }

  ghost function Asking(requestId: uint32, clientId: Text, appName: Text, secret: seq<byte>, sequence: seq<byte>,
                        asked: uint32): Msg
    requires T.Encodable(RequestOf(clientId, appName, secret, sequence))
  {
    PairBeginRequest(requestId, T.EncodeAll(RequestOf(clientId, appName, secret, sequence)), asked)
  }

  /** The pairing that is pending once a good request with readable text has come in. */
  ghost predicate Pending(s: State, clientId: Text, appName: Text, secret: seq<byte>, sequence: seq<byte>, asked: uint32) {
    && Inv(s) && s.pairing.Some?
    && var p := s.pairing.value;
    && p.clientId == clientId && p.appName == appName && p.secret == secret && p.sequence == sequence
    && p.progress == 0 && p.deadline as nat == (asked as nat + 12000) % 0x1_0000_0000
  }

  lemma AskingIsPending(s: State, requestId: uint32, clientId: Text, appName: Text, secret: seq<byte>,
                        sequence: seq<byte>, asked: uint32, hmac: Hmac)
    requires Inv(s) && IsText(clientId, CLIENT_ID_MAX_LEN) && IsText(appName, APP_NAME_MAX_LEN)
    requires GoodRequest(clientId, secret, sequence)
    ensures T.Encodable(RequestOf(clientId, appName, secret, sequence))
    ensures var begun := Step(s, Asking(requestId, clientId, appName, secret, sequence, asked), hmac);
            Pending(begun, clientId, appName, secret, sequence, asked) && begun.slots == s.slots
  {
    TextReads(clientId);
    TextReads(appName);
    PairingIsAsRequested(s, requestId, clientId, appName, secret, sequence, asked);
    StepKeepsInv(s, Asking(requestId, clientId, appName, secret, sequence, asked), hmac);
  }

  lemma PendingIsPaired(s: State, clientId: Text, appName: Text, secret: seq<byte>, sequence: seq<byte>, asked: uint32,
                        pressed: uint32, now: uint32, hmac: Hmac)
    requires Pending(s, clientId, appName, secret, sequence, asked)
    requires |sequence| == 4 && pressed as nat <= (asked as nat + 12000) % 0x1_0000_0000
    requires Stored(s.slots, clientId) || HasFreeSlot(s.slots)
    ensures var paired := Presses(s, sequence, pressed, now, hmac, 4);
            && Inv(paired) && Speaker(paired) == Some(clientId)
            && TrustedAs(paired.slots, clientId) == Some(Record(clientId, appName, secret, now))
  {
    PressesMove(s, pressed, now, hmac, 3);
    LastPressCompletes(Presses(s, sequence, pressed, now, hmac, 3), pressed, now, hmac);
  }

  /** A client whose link has dropped comes back with its secret. */
  lemma DroppedClientComesBack(s: State, clientId: Text, secret: seq<byte>, nonce: Nonce, answer: seq<byte>, hmac: Hmac)
    requires Inv(s) && IsText(clientId, CLIENT_ID_MAX_LEN) && |answer| == 32 && hmac(secret, nonce) == Some(answer)
    requires TrustedAs(s.slots, clientId).Some? && TrustedAs(s.slots, clientId).value.secret == secret
    ensures var dropped := Step(s, LinkDisconnected, hmac);
            var challenged := Step(dropped, ChallengeRequest(T.EncodeAll(IdEntry(clientId)), nonce), hmac);
            var back := Step(challenged, ProofRequest(T.EncodeAll(ProofEntries(clientId, answer))), hmac);
            Speaker(dropped) == None && Speaker(back) == Some(clientId)
  {
    DisconnectEndsAuthentication(s, hmac);
    StepKeepsInv(s, LinkDisconnected, hmac);
    StoredIsTrusted(s.slots, clientId);
    TrustedClientComesIn(Step(s, LinkDisconnected, hmac), clientId, nonce, answer, hmac);
  }

  /** The whole way: a client that asks to be paired, whose sequence is then pressed in time, is
      authenticated and recorded with its own secret; after the link has dropped it comes in
      again by proving that secret. */
  lemma PairedClientComesBack(s: State, requestId: uint32, clientId: Text, appName: Text, secret: seq<byte>,
                              sequence: seq<byte>, asked: uint32, pressed: uint32, now: uint32, nonce: Nonce,
                              answer: seq<byte>, hmac: Hmac)
    requires Inv(s) && IsText(clientId, CLIENT_ID_MAX_LEN) && IsText(appName, APP_NAME_MAX_LEN)
    requires GoodRequest(clientId, secret, sequence) && pressed as nat <= (asked as nat + 12000) % 0x1_0000_0000
    requires Stored(s.slots, clientId) || HasFreeSlot(s.slots)
    requires |answer| == 32 && hmac(secret, nonce) == Some(answer)
    ensures T.Encodable(RequestOf(clientId, appName, secret, sequence))
    ensures var begun := Step(s, Asking(requestId, clientId, appName, secret, sequence, asked), hmac);
            var paired := Presses(begun, sequence, pressed, now, hmac, 4);
            var dropped := Step(paired, LinkDisconnected, hmac);
            var challenged := Step(dropped, ChallengeRequest(T.EncodeAll(IdEntry(clientId)), nonce), hmac);
            var back := Step(challenged, ProofRequest(T.EncodeAll(ProofEntries(clientId, answer))), hmac);
            && Speaker(paired) == Some(clientId)
            && TrustedAs(paired.slots, clientId) == Some(Record(clientId, appName, secret, now))
            && Speaker(dropped) == None && Speaker(back) == Some(clientId)
  {
    AskingIsPending(s, requestId, clientId, appName, secret, sequence, asked, hmac);
    var begun := Step(s, Asking(requestId, clientId, appName, secret, sequence, asked), hmac);
    PendingIsPaired(begun, clientId, appName, secret, sequence, asked, pressed, now, hmac);
    DroppedClientComesBack(Presses(begun, sequence, pressed, now, hmac, 4), clientId, secret, nonce, answer, hmac);
  }
}
