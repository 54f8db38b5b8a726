/** The RELP command names the client knows. */
module RelpCommands {

  const OPEN: string := "open"
  const CLOSE: string := "close"
  const ABORT: string := "abort"
  const SERVER_CLOSE: string := "serverclose"
  const SYSLOG: string := "syslog"
  const RESPONSE: string := "rsp"

  predicate IsKnownCommand(c: string) {
    c == OPEN || c == CLOSE || c == ABORT || c == SERVER_CLOSE || c == SYSLOG || c == RESPONSE
  }

  /** Every known command name fits in the parser's 11-character limit. */
  lemma KnownCommandsAreShort(c: string)
    requires IsKnownCommand(c)
    ensures |c| <= 11
  {
  }
}
