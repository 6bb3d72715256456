/** The stored record of a proposed spend: creation, edits, and its final states. */
module Proposals {
  import opened Wrappers

  const VALID_STATUSES := {"draft", "pending", "signed", "broadcast", "cancelled", "fulfilled"}
  const TERMINAL_STATUSES := {"broadcast", "cancelled", "fulfilled"}

  datatype Record = Record(status: string, destination: string, amount: nat, psbtHex: Option<string>,
                           psbtB64: Option<string>,
                           psbtSignedHex: Option<string>, txid: Option<string>, memo: Option<string>)

  /** A field of an edit: absent, or set (`None` is JSON null). */
  datatype Field = Keep | Set(value: Option<string>) {
    function Over(stored: Option<string>): Option<string> { if Keep? then stored else value }
  }

  datatype Updates = Updates(status: Field, psbtHex: Field, psbtB64: Field, psbtSignedHex: Field, txid: Field,
                             memo: Field)

  /** The chain oracle: the outputs of a transaction, if it is known. */
  type Chain = string -> Option<seq<(string, nat)>>

  datatype PatchError = NoFields | InvalidStatus | RecordLocked | BadTxid | UnknownTransaction | DoesNotPay

  predicate IsHex(c: char) { '0' <= c <= '9' || 'a' <= c <= 'f' || 'A' <= c <= 'F' }

  predicate WellFormedTxid(s: string) { |s| == 64 && forall c | c in s :: IsHex(c) }

  predicate Pays(chain: Chain, txid: string, destination: string, amount: nat) {
    chain(txid).Some? && (destination, amount) in chain(txid).value
  }

  /** An empty text is stored as no text. */
  function NonEmpty(s: Option<string>): Option<string> { if s.GetOr("") == "" then None else s }

  function Created(destination: string, amount: nat, psbtHex: Option<string>, psbtB64: Option<string>,
                   memo: Option<string>)
    : Record
  {
    Record(if psbtHex.GetOr("") != "" then "pending" else "draft", destination, amount,
           NonEmpty(psbtHex), NonEmpty(psbtB64), None, None, memo)
  }

  function PatchProblem(r: Record, u: Updates, chain: Chain): Option<PatchError> {
    if u == Updates(Keep, Keep, Keep, Keep, Keep, Keep) then Some(NoFields)
    else if u.status.Set? && (u.status.value.None? || u.status.value.value !in VALID_STATUSES) then Some(InvalidStatus)
    else if r.status in TERMINAL_STATUSES && u.(memo := Keep) != Updates(Keep, Keep, Keep, Keep, Keep, Keep) then
        Some(RecordLocked)
    else if u.status == Set(Some("broadcast")) then
      if !u.txid.Set? || u.txid.value.None? || !WellFormedTxid(u.txid.value.value) then Some(BadTxid)
      else if chain(u.txid.value.value).None? then Some(UnknownTransaction)
      else if !Pays(chain, u.txid.value.value, r.destination, r.amount) then Some(DoesNotPay)
      else None
    else None
  }

  function Patched(r: Record, u: Updates, chain: Chain): Record {
    if PatchProblem(r, u, chain).Some? then r
    else r.(status := if u.status.Set? then u.status.value.value else r.status,
            psbtHex := u.psbtHex.Over(r.psbtHex), psbtB64 := u.psbtB64.Over(r.psbtB64),
            psbtSignedHex := u.psbtSignedHex.Over(r.psbtSignedHex), txid := u.txid.Over(r.txid),
            memo := u.memo.Over(r.memo))
  }

  /** The stored proposal. */
  class Proposal {
    const destination: string
    const amount: nat
    var status: string
    var psbtHex: Option<string>
    var psbtB64: Option<string>
    var psbtSignedHex: Option<string>
    var txid: Option<string>
    var memo: Option<string>

    function State(): Record
      reads this
    {
      Record(status, destination, amount, psbtHex, psbtB64, psbtSignedHex, txid, memo)
    }

    constructor (destination: string, amount: nat, psbtHex: Option<string>, psbtB64: Option<string>,
                 memo: Option<string>)
      ensures State() == Created(destination, amount, psbtHex, psbtB64, memo)
    {
      this.destination, this.amount := destination, amount;
      this.psbtHex, this.psbtB64, this.memo := NonEmpty(psbtHex), NonEmpty(psbtB64), memo;
      this.psbtSignedHex, this.txid := None, None;
      this.status := if psbtHex.GetOr("") != "" then "pending" else "draft";
    }

    method Patch(u: Updates, chain: Chain) returns (error: Option<PatchError>)
      modifies this
      ensures error == PatchProblem(old(State()), u, chain) && State() == Patched(old(State()), u, chain)
    {
      error := PatchProblem(State(), u, chain);
      if error.Some? { return; }
      if u.status.Set? { status := u.status.value.value; }
      if u.psbtHex.Set? { psbtHex := u.psbtHex.value; }
      if u.psbtB64.Set? { psbtB64 := u.psbtB64.value; }
      if u.psbtSignedHex.Set? { psbtSignedHex := u.psbtSignedHex.value; }
      if u.txid.Set? { txid := u.txid.value; }
      if u.memo.Set? { memo := u.memo.value; }
    }
  }

  // ---- What an edit may do ----

  /** The edit carries this or that field but the memo. */
  predicate TouchesSpend(u: Updates) {
    u.status.Set? || u.psbtHex.Set? || u.psbtB64.Set? || u.psbtSignedHex.Set? || u.txid.Set?
  }

  predicate KnownStatus(status: Option<string>) {
    status.Some? && status.value in {"draft", "pending", "signed", "broadcast", "cancelled", "fulfilled"}
  }

  predicate Ended(r: Record) { r.status == "broadcast" || r.status == "cancelled" || r.status == "fulfilled" }

  /** Sixty-four characters of hexadecimal, in either case. */
  predicate HexText(s: string) { |s| == 64 && forall i :: 0 <= i < 64 ==> s[i] in "0123456789abcdefABCDEF" }

  lemma HexTextExactly(s: string)
    ensures WellFormedTxid(s) <==> HexText(s)
  {
    forall i | 0 <= i < |s| ensures IsHex(s[i]) <==> s[i] in "0123456789abcdefABCDEF" { HexCharacter(s[i]); }
    assert forall c :: c in s <==> exists i :: 0 <= i < |s| && s[i] == c;
  }

  lemma HexCharacter(c: char)
    ensures IsHex(c) <==> c in "0123456789abcdefABCDEF"
  {
    var digits := "0123456789abcdefABCDEF";
    if '0' <= c <= '9' {
      assert digits[(c - '0') as int] == c;
    } else if 'a' <= c <= 'f' {
      assert digits[10 + (c - 'a') as int] == c;
    } else if 'A' <= c <= 'F' {
      assert digits[16 + (c - 'A') as int] == c;
    }
  }

  /** A new record is pending with a transaction to sign and a draft without, an empty text
      being none, and it has nothing signed or broadcast yet. */
  lemma CreatedExactly(destination: string, amount: nat, psbtHex: Option<string>, psbtB64: Option<string>,
                       memo: Option<string>)
    ensures var r := Created(destination, amount, psbtHex, psbtB64, memo);
            && r.destination == destination && r.amount == amount && r.memo == memo
            && r.psbtHex == (if psbtHex == Some("") then None else psbtHex)
            && r.psbtB64 == (if psbtB64 == Some("") then None else psbtB64)
            && r.status == (if r.psbtHex.Some? then "pending" else "draft")
            && r.psbtSignedHex.None? && r.txid.None?
  {
  }

  /** The transaction an edit to `broadcast` names is one that pays for this record. */
  predicate NamesPayment(r: Record, u: Updates, chain: Chain) {
    && u.txid.Set? && u.txid.value.Some? && HexText(u.txid.value.value)
    && chain(u.txid.value.value).Some? && (r.destination, r.amount) in chain(u.txid.value.value).value
  }

  /** An edit passes exactly when it carries something, a status it sets is a known one, it
      touches nothing but the memo of a record that has ended, and a transaction it calls
      broadcast pays what was proposed. */
  lemma EditsPassExactly(r: Record, u: Updates, chain: Chain)
    ensures PatchProblem(r, u, chain).None? <==>
              && (TouchesSpend(u) || u.memo.Set?)
              && (u.status.Set? ==> KnownStatus(u.status.value))
              && (Ended(r) ==> !TouchesSpend(u))
              && (u.status == Set(Some("broadcast")) ==> NamesPayment(r, u, chain))
    ensures PatchProblem(r, u, chain).Some? ==> Patched(r, u, chain) == r
    ensures PatchProblem(r, u, chain).None? ==>
              var next := Patched(r, u, chain);
              && (if u.status.Set? then Some(next.status) == u.status.value else next.status == r.status)
              && next.psbtHex == (if u.psbtHex.Set? then u.psbtHex.value else r.psbtHex)
              && next.psbtB64 == (if u.psbtB64.Set? then u.psbtB64.value else r.psbtB64)
              && next.psbtSignedHex == (if u.psbtSignedHex.Set? then u.psbtSignedHex.value else r.psbtSignedHex)
              && next.txid == (if u.txid.Set? then u.txid.value else r.txid)
              && next.memo == (if u.memo.Set? then u.memo.value else r.memo)
              && next.destination == r.destination && next.amount == r.amount
  {
    if u.txid.Set? && u.txid.value.Some? { HexTextExactly(u.txid.value.value); }
  }

  /** And a refusal names the first of these that fails. */
  lemma EditRefusals(r: Record, u: Updates, chain: Chain)
    ensures var e := PatchProblem(r, u, chain);
            if !TouchesSpend(u) && u.memo.Keep? then e == Some(NoFields)
            else if u.status.Set? && !KnownStatus(u.status.value) then e == Some(InvalidStatus)
            else if Ended(r) && TouchesSpend(u) then e == Some(RecordLocked)
            else if u.status == Set(Some("broadcast")) && !NamesPayment(r, u, chain) then
              var named := u.txid.Set? && u.txid.value.Some? && HexText(u.txid.value.value);
              && (e == Some(BadTxid) <==> !named)
              && (e == Some(UnknownTransaction) <==> named && chain(u.txid.value.value).None?)
              && (e == Some(DoesNotPay) <==> named && chain(u.txid.value.value).Some?)
            else e == None
  {
    if u.txid.Set? && u.txid.value.Some? { HexTextExactly(u.txid.value.value); }
  }

  function Run(r: Record, edits: seq<Updates>, chain: Chain): Record
    decreases |edits|
  {
    if edits == [] then r else Run(Patched(r, edits[0], chain), edits[1..], chain)
  }

  /** A broadcast record names a transaction that pays its own destination its own amount. */
  predicate Truthful(r: Record, chain: Chain) {
    r.status in VALID_STATUSES
    && (r.status == "broadcast" ==>
        r.txid.Some? && WellFormedTxid(r.txid.value) && Pays(chain, r.txid.value, r.destination, r.amount))
  }

  /** Over every run of edits from creation, records stay truthful and keep what they proposed. */
  lemma {:induction false} RunsStayTruthful(r: Record, edits: seq<Updates>, chain: Chain)
    requires Truthful(r, chain)
    ensures var last := Run(r, edits, chain);
            Truthful(last, chain) && last.destination == r.destination && last.amount == r.amount
    decreases |edits|
  {
    if edits != [] { RunsStayTruthful(Patched(r, edits[0], chain), edits[1..], chain); }
  }

  lemma CreatedIsTruthful(destination: string, amount: nat, psbtHex: Option<string>, psbtB64: Option<string>,
                          memo: Option<string>, edits: seq<Updates>, chain: Chain)
    ensures Truthful(Run(Created(destination, amount, psbtHex, psbtB64, memo), edits, chain), chain)
  {
    RunsStayTruthful(Created(destination, amount, psbtHex, psbtB64, memo), edits, chain);
  }

  /** Once broadcast, cancelled or fulfilled, only the memo can ever change. */
  lemma {:induction false} TerminalRecordsAreFinal(r: Record, edits: seq<Updates>, chain: Chain)
    requires r.status in TERMINAL_STATUSES
    ensures Run(r, edits, chain).(memo := None) == r.(memo := None)
    decreases |edits|
  {
    if edits != [] { TerminalRecordsAreFinal(Patched(r, edits[0], chain), edits[1..], chain); }
  }
}
