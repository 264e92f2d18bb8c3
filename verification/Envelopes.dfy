/** The cross-organisation envelope: the text an organisation signs, how an envelope is
    built, checked against the schema and verified. */
module Envelopes {
  import opened Text

  const LABEL := "huanyu-e2ee-v1"
  const SEP := '\U{2016}'

  /** A field missing from the incoming JSON reads as the empty string. */
  datatype Envelope = Envelope(
    v: string, kind: string, fromOrg: string, toOrg: string, fromAin: string, toAin: string,
    nonce: string, ts: string, body: string, msgId: string, seqNo: string)

  function Fields(e: Envelope): (f: seq<string>)
    ensures |f| == 11
  {
    [e.v, e.kind, e.fromOrg, e.toOrg, e.fromAin, e.toAin, e.nonce, e.ts, e.body, e.msgId, e.seqNo]
  }

  function SigText(e: Envelope): string {
    LABEL + Join(Fields(e), SEP)
  }

  lemma JoinStep(text: string, f: seq<string>, i: nat)
    requires i + 1 < |f|
    ensures text + Join(f[i..], SEP) == (text + f[i] + [SEP]) + Join(f[i + 1..], SEP)
  {
    assert f[i..][1..] == f[i + 1..];
    assert text + (f[i] + [SEP] + Join(f[i + 1..], SEP)) == (text + f[i] + [SEP]) + Join(f[i + 1..], SEP);
  }

  /** The signed text, spelled out: the label, then eleven fields in this order. */
  lemma SignedTextReads(e: Envelope)
    ensures var s := ['\U{2016}'];
            SigText(e) == "huanyu-e2ee-v1" + e.v + s + e.kind + s + e.fromOrg + s + e.toOrg + s + e.fromAin + s
                          + e.toAin + s + e.nonce + s + e.ts + s + e.body + s + e.msgId + s + e.seqNo
  {
    hide Join;
    var f := Fields(e);
    assert f[0..] == f;
    var t0 := LABEL + f[0] + [SEP];
    var t1 := t0 + f[1] + [SEP];
    var t2 := t1 + f[2] + [SEP];
    var t3 := t2 + f[3] + [SEP];
    var t4 := t3 + f[4] + [SEP];
    var t5 := t4 + f[5] + [SEP];
    var t6 := t5 + f[6] + [SEP];
    var t7 := t6 + f[7] + [SEP];
    var t8 := t7 + f[8] + [SEP];
    var t9 := t8 + f[9] + [SEP];
    JoinStep(LABEL, f, 0);
    JoinStep(t0, f, 1);
    JoinStep(t1, f, 2);
    JoinStep(t2, f, 3);
    JoinStep(t3, f, 4);
    JoinStep(t4, f, 5);
    JoinStep(t5, f, 6);
    JoinStep(t6, f, 7);
    JoinStep(t7, f, 8);
    JoinStep(t8, f, 9);
    JoinLast(f);
  }

  lemma JoinLast(f: seq<string>)
    requires |f| == 11
    ensures Join(f[10..], SEP) == f[10]
  {
    assert f[10..] == [f[10]];
  }

  predicate SepFree(e: Envelope) {
    AllFree(Fields(e), SEP)
  }

  lemma FieldsInjective(e: Envelope, e': Envelope)
    requires Fields(e) == Fields(e')
    ensures e == e'
  {
    var f, f' := Fields(e), Fields(e');
    assert f[0] == f'[0] && f[1] == f'[1] && f[2] == f'[2] && f[3] == f'[3] && f[4] == f'[4] && f[5] == f'[5];
    assert f[6] == f'[6] && f[7] == f'[7] && f[8] == f'[8] && f[9] == f'[9] && f[10] == f'[10];
  }

  /** Only the honest side needs separator-free fields: an envelope with the same
      signed text is then the very same envelope. */
  lemma SigTextInjective(e: Envelope, e': Envelope)
    requires SepFree(e)
    ensures SigText(e) == SigText(e') <==> e == e'
  {
    if SigText(e) == SigText(e') {
      assert SigText(e)[|LABEL|..] == Join(Fields(e), SEP);
      assert SigText(e')[|LABEL|..] == Join(Fields(e'), SEP);
      JoinInjective(Fields(e), Fields(e'), SEP);
      FieldsInjective(e, e');
    }
  }

  /** Without that condition the signed text is ambiguous. */
  lemma SeparatorMakesAmbiguous(e: Envelope, a: string, b: string, c: string)
    ensures var e1 := e.(v := a + [SEP] + b, kind := c);
            var e2 := e.(v := a, kind := b + [SEP] + c);
            e1 != e2 && SigText(e1) == SigText(e2)
  {
    var tail := Fields(e)[2..];
    assert |a + [SEP] + b| > |a|;
    JoinShift(a, b, c, tail);
    assert Fields(e.(v := a + [SEP] + b, kind := c)) == [a + [SEP] + b, c] + tail;
    assert Fields(e.(v := a, kind := b + [SEP] + c)) == [a, b + [SEP] + c] + tail;
  }

  lemma JoinShift(a: string, b: string, c: string, tail: seq<string>)
    requires |tail| > 0
    ensures Join([a + [SEP] + b, c] + tail, SEP) == Join([a, b + [SEP] + c] + tail, SEP)
  {
    var j := Join(tail, SEP);
    JoinTwo(a + [SEP] + b, c, tail);
    JoinTwo(a, b + [SEP] + c, tail);
    var u, v := a + [SEP], b + [SEP];
    Assoc(u, b, [SEP]);
    Assoc(u, v, c + [SEP] + j);
    Assoc(v, c, [SEP]);
    Assoc(v, c + [SEP], j);
  }

  lemma Assoc(p: string, q: string, r: string)
    ensures (p + q) + r == p + (q + r)
  {
  }

  lemma JoinTwo(x: string, y: string, tail: seq<string>)
    requires |tail| > 0
    ensures Join([x, y] + tail, SEP) == (x + [SEP]) + ((y + [SEP]) + Join(tail, SEP))
  {
    var all := [x, y] + tail;
    assert all[1..] == [y] + tail;
    assert all[1..][1..] == tail;
  }

  // ---- building and verifying -------------------------------------------------

  /** A signature scheme, left abstract: the primitives are not modelled. */
  datatype Scheme = Scheme(
    sign: (string, string) -> string,
    verify: (string, string, string) -> bool,
    publicKey: string -> string)

  /** What the private key signs verifies under its public key. */
  ghost predicate Correct(s: Scheme) {
    forall k, t :: s.sign(k, t) != "" && s.verify(s.publicKey(k), t, s.sign(k, t))
  }

  /** A signature verifies for no text but the one signed. */
  ghost predicate Binding(s: Scheme) {
    forall k, t, t' :: s.verify(s.publicKey(k), t', s.sign(k, t)) ==> t' == t
  }

  datatype Signed = Signed(env: Envelope, sig: string)

  function BuildEnvelope(s: Scheme, fromOrg: string, toOrg: string, fromAin: string, toAin: string,
                         body: string, priv: string, kind: string, nonce: string, ts: string,
                         msgId: string, seqNo: string): Signed
  {
    var env := Envelope("1", kind, fromOrg, toOrg, fromAin, toAin, nonce, ts, body, msgId, seqNo);
    Signed(env, s.sign(priv, SigText(env)))
  }

  predicate VerifyEnvelope(s: Scheme, pub: string, m: Signed) {
    m.sig != "" && s.verify(pub, SigText(m.env), m.sig)
  }

  const KINDS: set<string> := {"msg", "hello", "hello_ack", "error", "end_ack"}

  predicate SchemaOk(e: Envelope) {
    && e.v == "1"
    && e.kind in KINDS
    && 0 < |e.fromOrg| <= 128 && 0 < |e.toOrg| <= 128 && 0 < |e.fromAin| <= 128 && 0 < |e.toAin| <= 128
    && 0 < |e.nonce| <= 64 && 0 < |e.ts| <= 64 && 0 < |e.body| <= 1024 * 1024
    && |e.msgId| <= 128 && |e.seqNo| <= 20
  }

  predicate Within(s: string, least: nat, most: nat) {
    least <= |s| <= most
  }

  /** The shape check, field by field: a known version and kind, and a least and a greatest length for
      every further field. */
  lemma SchemaReads(e: Envelope)
    ensures SchemaOk(e)
            <==> && e.v == "1" && e.kind in ["msg", "hello", "hello_ack", "error", "end_ack"]
                 && Within(e.fromOrg, 1, 128) && Within(e.toOrg, 1, 128)
                 && Within(e.fromAin, 1, 128) && Within(e.toAin, 1, 128)
                 && Within(e.nonce, 1, 64) && Within(e.ts, 1, 64) && Within(e.body, 1, 1048576)
                 && Within(e.msgId, 0, 128) && Within(e.seqNo, 0, 20)
  {
  }

  /** A built envelope verifies; carried with the same signature, any other envelope does not. */
  lemma VerifiesExactlyAsBuilt(s: Scheme, fromOrg: string, toOrg: string, fromAin: string, toAin: string,
                               body: string, priv: string, kind: string, nonce: string, ts: string,
                               msgId: string, seqNo: string, received: Envelope)
    requires Correct(s) && Binding(s)
    requires SepFree(Envelope("1", kind, fromOrg, toOrg, fromAin, toAin, nonce, ts, body, msgId, seqNo))
    ensures var built := BuildEnvelope(s, fromOrg, toOrg, fromAin, toAin, body, priv, kind, nonce, ts, msgId, seqNo);
            && built.env.v == "1" && built.env.kind == kind && built.env.fromOrg == fromOrg && built.env.toOrg == toOrg
            && built.env.fromAin == fromAin && built.env.toAin == toAin && built.env.nonce == nonce
            && built.env.ts == ts && built.env.body == body && built.env.msgId == msgId && built.env.seqNo == seqNo
            && (VerifyEnvelope(s, s.publicKey(priv), Signed(received, built.sig)) <==> received == built.env)
            && !VerifyEnvelope(s, s.publicKey(priv), Signed(received, ""))
  {
    var built := BuildEnvelope(s, fromOrg, toOrg, fromAin, toAin, body, priv, kind, nonce, ts, msgId, seqNo);
    SigTextInjective(built.env, received);
  }

  // ---- the ideal form used by the protocol model ------------------------------

  /** An unforgeable signature: an envelope verifies for its claimed sender exactly when
      that sender signed a text equal to the envelope's. */
  ghost predicate Verified(signed: set<Envelope>, e: Envelope) {
    exists h :: h in signed && h.fromOrg == e.fromOrg && SigText(h) == SigText(e)
  }

  lemma VerifiedIsSigned(signed: set<Envelope>, e: Envelope)
    requires forall h :: h in signed ==> SepFree(h)
    ensures Verified(signed, e) <==> e in signed
  {
    if Verified(signed, e) {
      var h :| h in signed && h.fromOrg == e.fromOrg && SigText(h) == SigText(e);
      SigTextInjective(h, e);
    }
  }
}
