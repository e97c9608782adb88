/**
 * Construction of a `Message` from a raw MIME document. The MIME parser and
 * the HTML-to-text converter are foreign libraries; they enter the model as
 * function values whose behaviour is left open.
 */
module Mime {
  import opened Wrappers

  /** The four fields the notification is built from. */
  datatype Message = Message(from: string, to: string, subject: string, body: string)

  /**
   * What the parser yields for a document it accepts: the first value of
   * each of the `From`, `To` and `Subject` headers when present, and the
   * decoded body when it can be extracted.
   */
  datatype ParsedMail = ParsedMail(
    fromHeader: Option<string>,
    toHeader: Option<string>,
    subjectHeader: Option<string>,
    rawBody: Option<string>)

  /** A parser: `None` for a document it rejects. */
  type Parser = string -> Option<ParsedMail>

  /** An HTML-to-text converter. */
  type HtmlToText = string -> string

  const EmptyMessage := Message("", "", "", "")

  /**
   * `Message::new`: a rejected document gives the all-empty message; an
   * accepted one takes each header's first value, or `""` for an absent
   * header, and the converted body, converting `""` when the body cannot be
   * extracted.
   */
  function NewMessage(mime: string, parse: Parser, html2text: HtmlToText): (m: Message)
    ensures parse(mime).None? ==> m == EmptyMessage
    ensures parse(mime).Some? ==>
      var p := parse(mime).value;
      (p.fromHeader.None? ==> m.from == "") && (p.fromHeader.Some? ==> m.from == p.fromHeader.value) &&
      (p.toHeader.None? ==> m.to == "") && (p.toHeader.Some? ==> m.to == p.toHeader.value) &&
      (p.subjectHeader.None? ==> m.subject == "") && (p.subjectHeader.Some? ==> m.subject == p.subjectHeader.value) &&
      (p.rawBody.None? ==> m.body == html2text("")) && (p.rawBody.Some? ==> m.body == html2text(p.rawBody.value))
  {
    match parse(mime)
    case None => EmptyMessage
    case Some(p) =>
      Message(
        p.fromHeader.GetOr(""),
        p.toHeader.GetOr(""),
        p.subjectHeader.GetOr(""),
        html2text(p.rawBody.GetOr("")))
  }

  /**
   * The recipient is empty exactly when the document is rejected or its
   * `To` header is absent or empty.
   */
  lemma EmptyRecipientIff(mime: string, parse: Parser, html2text: HtmlToText)
    ensures NewMessage(mime, parse, html2text).to == "" <==>
      parse(mime).None? || parse(mime).value.toHeader.None? || parse(mime).value.toHeader == Some("")
  {
  }
}
