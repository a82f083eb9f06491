/** Every stored message has a text the service accepts, whatever commits when. */
module StoredTexts {
  import opened Domain
  import opened MessageText
  import opened Writer

  predicate TextOk(text: Option<string>) {
    text.Some? && Acceptable(text.value)
  }

  predicate EventTextOk(e: Event) {
    match e
    case Created(w) => TextOk(w.text)
    case Updated(w) => TextOk(w.text)
    case _ => true
  }

  predicate TxnTextOk(txn: Txn) {
    && (txn.op.Create? || txn.op.Update? ==> Acceptable(txn.op.text))
    && match txn.stage
       case Checked => true
       case Inserted(m) => TextOk(m.text)
       case Written(e, _) => EventTextOk(e)
       case Numbered(e, _, _) => EventTextOk(e)
  }

  ghost predicate TextsOk(db: Db) {
    && (forall id :: id in db.messages ==> TextOk(db.messages[id].text))
    && (forall t :: t in db.txs ==> TxnTextOk(db.txs[t]))
    && (forall k :: k in db.outbox ==> EventTextOk(db.outbox[k]))
  }

  lemma CommitKeepsTexts(db: Db, t: nat)
    requires TextsOk(db) && Enabled(db, Commit(t))
    ensures TextsOk(CommitTxn(db, t))
  {
    assert TxnTextOk(db.txs[t]);
  }

  lemma StepKeepsTexts(db: Db, l: Label)
    requires TextsOk(db)
    ensures TextsOk(Next(db, l))
  {
    if l.Commit? && Enabled(db, l) {
      CommitKeepsTexts(db, l.t);
    } else if Enabled(db, l) && (l.Check? || l.Insert? || l.Lock? || l.Number?) {
      OpenTextOk(db, l);
      assert Next(db, l).messages == db.messages && Next(db, l).outbox == db.outbox;
    }
  }

  lemma OpenTextOk(db: Db, l: Label)
    requires TextsOk(db) && Enabled(db, l) && (l.Check? || l.Insert? || l.Lock? || l.Number?)
    ensures l.t in Next(db, l).txs && TxnTextOk(Next(db, l).txs[l.t])
  {
    if l.t in db.txs {
      assert TxnTextOk(db.txs[l.t]);
    }
  }

  lemma {:induction false} TextsAcceptable(ls: seq<Label>)
    ensures TextsOk(Exec(ls))
  {
    if ls != [] {
      TextsAcceptable(ls[..|ls| - 1]);
      StepKeepsTexts(Exec(ls[..|ls| - 1]), ls[|ls| - 1]);
    }
  }

  /** At most 8000 bytes, not empty, and no white space at either end. */
  predicate CleanText(text: Option<string>) {
    && text.Some? && text.value != "" && ByteLength(text.value) <= 8000
    && !IsSpace(text.value[0]) && !IsSpace(text.value[|text.value| - 1])
  }

  /** In every run each stored and each published text is trimmed, not empty and at most 8000 bytes
      long. */
  lemma StoredTextsClean(ls: seq<Label>)
    ensures forall id :: id in Exec(ls).messages ==> CleanText(Exec(ls).messages[id].text)
    ensures forall k :: k in Exec(ls).outbox && (Exec(ls).outbox[k].Created? || Exec(ls).outbox[k].Updated?) ==>
              CleanText(Exec(ls).outbox[k].msg.text)
  {
    TextsAcceptable(ls);
    var db := Exec(ls);
    forall k | k in db.outbox && (db.outbox[k].Created? || db.outbox[k].Updated?)
      ensures CleanText(db.outbox[k].msg.text)
    {
      assert EventTextOk(db.outbox[k]);
    }
  }
}
