/**
 * The per-connection SMTP handler: it accumulates the envelope sender and the
 * DATA chunks of a message as text pieces, joins them when the data ends and
 * hands the document, with the account list, to a delivery task.
 */
module Session {
  import opened Wrappers
  import Utf8
  import Mime
  import Router
  import Telegram

  /** An SMTP reply code with its text. */
  datatype Response = Response(code: nat, text: string)

  /** The positive completion reply the handler gives to every callback. */
  const OK := Response(250, "OK")

  /** How a DATA chunk ends: stored, or the handler panics on text that is not UTF-8. */
  datatype DataOutcome = Stored | Panic

  /** The unit of work `data_end` hands off: the joined document and a copy of the accounts. */
  datatype Job = Job(mime: string, accounts: seq<Router.Account>)

  /** The pieces concatenated in order, with nothing between them. */
  function Join(pieces: seq<string>): string {
    if pieces == [] then "" else pieces[0] + Join(pieces[1..])
  }

  /** Joining distributes over concatenation of the piece lists. */
  lemma {:induction false} JoinAppend(a: seq<string>, b: seq<string>)
    ensures Join(a + b) == Join(a) + Join(b)
  {
    if a == [] {
      assert a + b == b;
    } else {
      assert (a + b)[1..] == a[1..] + b;
      JoinAppend(a[1..], b);
    }
  }

  lemma JoinPair(a: string, b: string)
    ensures Join([a, b]) == a + b
  {
    assert [a, b][1..] == [b] && [b][1..] == [];
    assert Join([b]) == b + Join([]);
    assert b + "" == b;
    assert Join([a, b]) == a + Join([b]);
  }

  /** The line `mail` adds for the envelope sender. */
  function FromLine(from: string): (line: string)
    ensures |line| == |from| + 7
    ensures line[..6] == "From: " && line[6..|line| - 1] == from && line[|line| - 1] == '\n'
  {
    "From: " + from + "\n"
  }

  class MyHandler {
    /** The text pieces received on this connection so far, in arrival order. */
    var mime: seq<string>
    /** The configured accounts, never changed by the handler. */
    const accounts: seq<Router.Account>
    /** Set once the handler has panicked: the connection is gone and no callback comes again. */
    var panicked: bool

    constructor (accounts: seq<Router.Account>)
      ensures mime == [] && this.accounts == accounts && !panicked
    {
      mime := [];
      this.accounts := accounts;
      panicked := false;
    }

    /** `MAIL FROM`: adds a `From:` line for the envelope sender after what is already buffered. */
    method Mail(from: string) returns (response: Response)
      requires !panicked
      modifies this
      ensures mime == old(mime) + [FromLine(from)] && !panicked
      ensures response == OK
    {
      mime := mime + [FromLine(from)];
      response := OK;
    }

    /**
     * A DATA chunk: its UTF-8 text becomes one more piece; a chunk that is
     * not UTF-8 makes the handler panic before anything is stored, which
     * ends the connection: nothing of it is ever handed off.
     */
    method Data(buf: seq<Utf8.byte>) returns (outcome: DataOutcome)
      requires !panicked
      modifies this
      ensures Utf8.Decode(buf).Some? ==> outcome == Stored && mime == old(mime) + [Utf8.Decode(buf).value]
      ensures Utf8.Decode(buf).None? ==> outcome == Panic && mime == old(mime)
      ensures panicked <==> outcome == Panic
    {
      var text := Utf8.Decode(buf);
      if text.None? {
        panicked := true;
        return Panic;
      }
      mime := mime + [text.value];
      outcome := Stored;
    }

    /**
     * End of DATA: joins the pieces into one document, hands it off with the
     * accounts, and answers OK whatever becomes of the delivery. The buffer
     * is left as it was.
     */
    method DataEnd() returns (response: Response, job: Job)
      requires !panicked
      ensures response == OK
      ensures job.mime == Join(mime) && job.accounts == accounts
    {
      var doc := "";
      for i := 0 to |mime|
        invariant doc == Join(mime[..i])
      {
        JoinAppend(mime[..i], [mime[i]]);
        assert mime[..i + 1] == mime[..i] + [mime[i]];
        doc := doc + mime[i];
      }
      assert mime[..|mime|] == mime;
      job := Job(doc, accounts);
      response := OK;
    }
  }

  /** The bytes of all chunks, in order. */
  function Flatten(chunks: seq<seq<Utf8.byte>>): seq<Utf8.byte> {
    if chunks == [] then [] else chunks[0] + Flatten(chunks[1..])
  }

  /**
   * When every DATA chunk is UTF-8, the joined text of the chunks is the
   * decoding of the whole byte stream they form.
   */
  lemma {:induction false} JoinDecodesStream(chunks: seq<seq<Utf8.byte>>, texts: seq<string>)
    requires |chunks| == |texts|
    requires forall i :: 0 <= i < |chunks| ==> Utf8.Decode(chunks[i]) == Some(texts[i])
    ensures Utf8.Decode(Flatten(chunks)) == Some(Join(texts))
  {
    if chunks != [] {
      JoinDecodesStream(chunks[1..], texts[1..]);
      Utf8.DecodeAppend(chunks[0], Flatten(chunks[1..]), texts[0], Join(texts[1..]));
    }
  }

  /**
   * Two mail transactions on one connection: the buffer is not cleared at
   * the end of the first, so the second document repeats the first one.
   * A chunk that is not UTF-8 ends the connection, and no later document
   * is handed off.
   */
  method TwoTransactions(accounts: seq<Router.Account>, from1: string, data1: seq<Utf8.byte>,
                         from2: string, data2: seq<Utf8.byte>)
    returns (first: Option<Job>, second: Option<Job>)
    ensures first.Some? <==> Utf8.Decode(data1).Some?
    ensures second.Some? <==> Utf8.Decode(data1).Some? && Utf8.Decode(data2).Some?
    ensures first.Some? ==>
      first.value == Job(FromLine(from1) + Utf8.Decode(data1).value, accounts)
    ensures second.Some? ==>
      second.value == Job(first.value.mime + FromLine(from2) + Utf8.Decode(data2).value, accounts)
  {
    var h := new MyHandler(accounts);
    var _ := h.Mail(from1);
    var outcome := h.Data(data1);
    if outcome == Panic {
      return None, None;
    }
    var _, j1 := h.DataEnd();
    first := Some(j1);
    ghost var pieces1 := h.mime;
    var t1 := Utf8.Decode(data1).value;
    assert pieces1 == [FromLine(from1), t1];
    JoinPair(FromLine(from1), t1);
    var _ := h.Mail(from2);
    outcome := h.Data(data2);
    if outcome == Panic {
      return first, None;
    }
    var _, j2 := h.DataEnd();
    second := Some(j2);
    var t2 := Utf8.Decode(data2).value;
    assert h.mime == pieces1 + [FromLine(from2), t2];
    JoinAppend(pieces1, [FromLine(from2), t2]);
    JoinPair(FromLine(from2), t2);
  }

  /**
   * The spawned task: builds the message, picks the destination account and
   * produces the `sendMessage` request; `None` is the panic of unwrapping the
   * account lookup on an empty account list.
   */
  function Deliver(job: Job, parse: Mime.Parser, html2text: Mime.HtmlToText): (r: Option<Telegram.Request>)
    ensures r.None? <==> job.accounts == []
    ensures r.Some? ==>
      (exists a :: a in job.accounts && Telegram.IsSendMessage(r.value, a.telegramChatId, a.telegramBotKey))
    ensures r.Some? ==>
      var msg := Mime.NewMessage(job.mime, parse, html2text);
      r.value.payload["text"] == Telegram.RenderText(msg.from, msg.subject, msg.body)
  {
    var msg := Mime.NewMessage(job.mime, parse, html2text);
    match Router.FindAccount(job.accounts, msg.to)
    case None => None
    case Some(d) => Some(Telegram.SendToTelegram(msg, d.telegramChatId, d.telegramBotKey))
  }

  /** The request goes to the first account whose address is the message's recipient. */
  lemma DeliverToRecipient(job: Job, parse: Mime.Parser, html2text: Mime.HtmlToText, i: nat)
    requires Router.IsFirstMatch(job.accounts, Mime.NewMessage(job.mime, parse, html2text).to, i)
    ensures Deliver(job, parse, html2text) ==
      var msg := Mime.NewMessage(job.mime, parse, html2text);
      Some(Telegram.Request(
        Telegram.SendMessageUrl(job.accounts[i].telegramBotKey),
        Telegram.Payload(job.accounts[i].telegramChatId, Telegram.RenderText(msg.from, msg.subject, msg.body))))
  {
    Router.FindAccountFirstMatch(job.accounts, Mime.NewMessage(job.mime, parse, html2text).to, i);
  }

  /** With no account for the recipient, the rendered message goes to the first account. */
  lemma DeliverFallback(job: Job, parse: Mime.Parser, html2text: Mime.HtmlToText)
    requires job.accounts != []
    requires forall a :: a in job.accounts ==> a.address != Mime.NewMessage(job.mime, parse, html2text).to
    ensures var msg := Mime.NewMessage(job.mime, parse, html2text);
      Deliver(job, parse, html2text) ==
        Some(Telegram.SendToTelegram(msg, job.accounts[0].telegramChatId, job.accounts[0].telegramBotKey))
  {
    Router.FindAccountFallback(job.accounts, Mime.NewMessage(job.mime, parse, html2text).to);
  }

  /**
   * A document the parser rejects is still delivered, as an empty
   * notification to the first account when no account has an empty address.
   */
  lemma DeliverUnparseable(job: Job, parse: Mime.Parser, html2text: Mime.HtmlToText)
    requires parse(job.mime).None? && job.accounts != []
    requires forall a :: a in job.accounts ==> a.address != ""
    ensures Deliver(job, parse, html2text) ==
      Some(Telegram.Request(
        Telegram.SendMessageUrl(job.accounts[0].telegramBotKey),
        Telegram.Payload(job.accounts[0].telegramChatId, Telegram.Envelope + "\n<b></b>\n")))
  {
    Router.FindAccountFallback(job.accounts, "");
    assert Telegram.RenderText("", "", "") == Telegram.Envelope + "\n<b></b>\n";
  }

  /** A message without a `To` header goes to the first account when no account has an empty address. */
  lemma DeliverWithoutRecipient(job: Job, parse: Mime.Parser, html2text: Mime.HtmlToText)
    requires parse(job.mime).Some? && parse(job.mime).value.toHeader.None? && job.accounts != []
    requires forall a :: a in job.accounts ==> a.address != ""
    ensures Deliver(job, parse, html2text).Some?
    ensures Deliver(job, parse, html2text).value.url == Telegram.SendMessageUrl(job.accounts[0].telegramBotKey)
    ensures Deliver(job, parse, html2text).value.payload["chat_id"] == job.accounts[0].telegramChatId
  {
  }
}
