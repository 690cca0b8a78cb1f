/**
 * The mail the program sends: the reset mail's body, and the SMTP message and
 * envelope that the SendMail function builds (the network call itself is not
 * modelled; `SmtpCall` records the arguments it would receive).
 */
module Mail {
  import opened Wrappers
  import opened Text

  datatype MailConfig = MailConfig(host: string, port: int, username: string, password: string, from: string)

  // ---------------------------------------------------------------------
  // GeneratePasswordResetEmail

  const ResetEmailPrefix: string :=
    "パスワードリセットのリクエストを受け付けました。\n\n以下のURLをクリックしてパスワードをリセットしてください：\n"

  const ResetEmailSuffix: string :=
    "\n\nこのリンクは24時間有効です。\n心当たりがない場合は、このメールを無視してください。"

  /** The reset mail's body: fixed text, the URL on a line of its own, fixed text. */
  function GeneratePasswordResetEmail(resetURL: string): (body: string)
    ensures |body| == |ResetEmailPrefix| + |resetURL| + |ResetEmailSuffix|
    ensures body[..|ResetEmailPrefix|] == ResetEmailPrefix
    ensures body[|ResetEmailPrefix|..|ResetEmailPrefix| + |resetURL|] == resetURL
    ensures body[|ResetEmailPrefix| + |resetURL|..] == ResetEmailSuffix
  {
    ResetEmailPrefix + resetURL + ResetEmailSuffix
  }

  /** The URL a reset mail's body carries, if it has the reset mail's shape. */
  function ResetURLOf(body: string): Option<string>
  {
    var n, m := |ResetEmailPrefix|, |ResetEmailSuffix|;
    if |body| >= n + m && body[..n] == ResetEmailPrefix && body[|body| - m..] == ResetEmailSuffix
    then Some(body[n..|body| - m])
    else None
  }

  /** The URL can be read back from the body, so different URLs give different bodies. */
  lemma ResetEmailRoundTrip(resetURL: string)
    ensures ResetURLOf(GeneratePasswordResetEmail(resetURL)) == Some(resetURL)
  {
  }

  // ---------------------------------------------------------------------
  // SendMail: address, message, envelope

  /** fmt.Sprintf("%s:%d", Host, Port). */
  function ServerAddress(cfg: MailConfig): (addr: string)
    ensures |addr| > |cfg.host| && addr[..|cfg.host|] == cfg.host && addr[|cfg.host|] == ':'
    ensures SignedValue(addr[|cfg.host| + 1..]) == Some(cfg.port)
  {
    DecimalRoundTrip(cfg.port);
    var addr := cfg.host + ":" + DecimalString(cfg.port);
    assert addr[|cfg.host| + 1..] == DecimalString(cfg.port);
    addr
  }

  const ContentType: string := "text/plain; charset=UTF-8"

  function HeaderLine(name: string, value: string): string
  {
    name + ": " + value + "\r\n"
  }

  /** The message SendMail writes: four header lines, an empty line, then the body. */
  function Message(from: string, to: string, subject: string, body: string): string
  {
    HeaderLine("From", from)
    + (HeaderLine("To", to)
    + (HeaderLine("Subject", subject)
    + (HeaderLine("Content-Type", ContentType)
    + ("\r\n" + body))))
  }

  /** The arguments of smtp.PlainAuth and smtp.SendMail. */
  datatype SmtpCall = SmtpCall(
    addr: string,
    authUsername: string,
    authPassword: string,
    authHost: string,
    from: string,
    recipients: seq<string>,
    msg: string)

  /** What SendMail(config, to, subject, body) hands to the SMTP client. */
  function SendMailCall(cfg: MailConfig, to: string, subject: string, body: string): (call: SmtpCall)
    ensures call.recipients == [to] && call.from == cfg.from
    ensures call.authUsername == cfg.username && call.authPassword == cfg.password && call.authHost == cfg.host
  {
    SmtpCall(ServerAddress(cfg), cfg.username, cfg.password, cfg.host, cfg.from, [to],
             Message(cfg.from, to, subject, body))
  }

  // ---------------------------------------------------------------------
  // Reading a message back: the inverse of Message

  /** The position of the first CR LF in `s`. */
  function IndexOfCrlf(s: string): (r: Option<nat>)
    ensures r.Some? ==> r.value + 2 <= |s|
    decreases |s|
  {
    if |s| < 2 then None
    else if s[0] == '\r' && s[1] == '\n' then Some(0)
    else match IndexOfCrlf(s[1..])
      case None => None
      case Some(k) => Some(k + 1)
  }

  /** The position of the first `c` in `s`. */
  function IndexOf(s: string, c: char): (r: Option<nat>)
    ensures r.Some? ==> r.value < |s|
    decreases |s|
  {
    if s == [] then None
    else if s[0] == c then Some(0)
    else match IndexOf(s[1..], c)
      case None => None
      case Some(k) => Some(k + 1)
  }

  /** "Name: value" split at the first colon, which a space must follow. */
  function ParseHeaderLine(line: string): Option<(string, string)>
  {
    match IndexOf(line, ':')
    case None => None
    case Some(k) =>
      if k + 1 < |line| && line[k + 1] == ' ' then Some((line[..k], line[k + 2..])) else None
  }

  /** The header fields up to the first empty line, and the text after it. */
  function ParseMessage(s: string): Option<(seq<(string, string)>, string)>
    decreases |s|
  {
    match IndexOfCrlf(s)
    case None => None
    case Some(k) =>
      if k == 0 then Some(([], s[2..]))
      else
        match ParseHeaderLine(s[..k])
        case None => None
        case Some(h) =>
          match ParseMessage(s[k + 2..])
          case None => None
          case Some(rest) => Some(([h] + rest.0, rest.1))
  }

  lemma {:induction false} CrlfEndsLine(line: string, rest: string)
    requires '\r' !in line
    ensures IndexOfCrlf(line + "\r\n" + rest) == Some(|line|)
    decreases |line|
  {
    var s := line + "\r\n" + rest;
    if line != [] {
      assert s[1..] == line[1..] + "\r\n" + rest;
      assert '\r' !in line[1..];
      CrlfEndsLine(line[1..], rest);
    }
  }

  lemma {:induction false} ColonEndsName(name: string, rest: string)
    requires ':' !in name
    ensures IndexOf(name + ":" + rest, ':') == Some(|name|)
    decreases |name|
  {
    var s := name + ":" + rest;
    if name != [] {
      assert s[1..] == name[1..] + ":" + rest;
      assert ':' !in name[1..];
      ColonEndsName(name[1..], rest);
    }
  }

  /** A header line whose name has no colon and whose value no CR is read back as one field. */
  lemma ParseOneHeader(name: string, value: string, rest: string, fields: seq<(string, string)>, body: string)
    requires ':' !in name && '\r' !in name && '\r' !in value && name != ""
    requires ParseMessage(rest) == Some((fields, body))
    ensures ParseMessage(HeaderLine(name, value) + rest) == Some(([(name, value)] + fields, body))
  {
    var line := name + ": " + value;
    var s := HeaderLine(name, value) + rest;
    assert s == line + "\r\n" + rest;
    assert '\r' !in line;
    CrlfEndsLine(line, rest);
    assert s[..|line|] == line;
    assert s[|line| + 2..] == rest;
    assert line == name + ":" + (" " + value);
    ColonEndsName(name, " " + value);
    assert line[..|name|] == name && line[|name| + 2..] == value;
  }

  /** The four constant header texts are safe to read back. */
  lemma HeaderNamesAreSafe()
    ensures ':' !in "From" && '\r' !in "From"
    ensures ':' !in "To" && '\r' !in "To"
    ensures ':' !in "Subject" && '\r' !in "Subject"
    ensures ':' !in "Content-Type" && '\r' !in "Content-Type" && '\r' !in ContentType
  {
  }

  /** The empty line ends the header block. */
  lemma ParseEmptyLine(body: string)
    ensures ParseMessage("\r\n" + body) == Some(([], body))
  {
    var tail := "\r\n" + body;
    assert IndexOfCrlf(tail) == Some(0);
    assert tail[2..] == body;
  }

  /**
   * A message whose sender, recipient and subject hold no CR is read back
   * as exactly its four header fields, in order, and its body.
   */
  lemma MessageRoundTrip(from: string, to: string, subject: string, body: string)
    requires '\r' !in from && '\r' !in to && '\r' !in subject
    ensures ParseMessage(Message(from, to, subject, body))
         == Some(([("From", from), ("To", to), ("Subject", subject), ("Content-Type", ContentType)], body))
  {
    HeaderNamesAreSafe();
    var tail := "\r\n" + body;
    ParseEmptyLine(body);
    var r3 := HeaderLine("Content-Type", ContentType) + tail;
    ParseOneHeader("Content-Type", ContentType, tail, [], body);
    assert [("Content-Type", ContentType)] + [] == [("Content-Type", ContentType)];
    var r2 := HeaderLine("Subject", subject) + r3;
    ParseOneHeader("Subject", subject, r3, [("Content-Type", ContentType)], body);
    assert [("Subject", subject)] + [("Content-Type", ContentType)] == [("Subject", subject), ("Content-Type", ContentType)];
    var r1 := HeaderLine("To", to) + r2;
    ParseOneHeader("To", to, r2, [("Subject", subject), ("Content-Type", ContentType)], body);
    assert [("To", to)] + [("Subject", subject), ("Content-Type", ContentType)]
        == [("To", to), ("Subject", subject), ("Content-Type", ContentType)];
    var r0 := HeaderLine("From", from) + r1;
    ParseOneHeader("From", from, r1, [("To", to), ("Subject", subject), ("Content-Type", ContentType)], body);
    assert [("From", from)] + [("To", to), ("Subject", subject), ("Content-Type", ContentType)]
        == [("From", from), ("To", to), ("Subject", subject), ("Content-Type", ContentType)];
    assert Message(from, to, subject, body) == r0;
  }
}
