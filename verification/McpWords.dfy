/** The fixed words of the replies, one lemma each: they need no escaping. */
module McpWords {
  import opened Json

  lemma {:induction false} WordJsonrpc(ascii: bool) ensures EscapedSize("jsonrpc", ascii) == 7 { PlainSize("jsonrpc", ascii); }
  lemma {:induction false} Word_2_0(ascii: bool) ensures EscapedSize("2.0", ascii) == 3 { PlainSize("2.0", ascii); }
  lemma {:induction false} WordId(ascii: bool) ensures EscapedSize("id", ascii) == 2 { PlainSize("id", ascii); }
  lemma {:induction false} WordResult(ascii: bool) ensures EscapedSize("result", ascii) == 6 { PlainSize("result", ascii); }
  lemma {:induction false} WordError(ascii: bool) ensures EscapedSize("error", ascii) == 5 { PlainSize("error", ascii); }
  lemma {:induction false} WordCodeKey(ascii: bool) ensures EscapedSize("code", ascii) == 4 { PlainSize("code", ascii); }
  lemma {:induction false} WordMessage(ascii: bool) ensures EscapedSize("message", ascii) == 7 { PlainSize("message", ascii); }
  lemma {:induction false} WordProtocolVersion(ascii: bool) ensures EscapedSize("protocolVersion", ascii) == 15 { PlainSize("protocolVersion", ascii); }
  lemma {:induction false} Word_2025_06_18(ascii: bool) ensures EscapedSize("2025-06-18", ascii) == 10 { PlainSize("2025-06-18", ascii); }
  lemma {:induction false} WordCapabilities(ascii: bool) ensures EscapedSize("capabilities", ascii) == 12 { PlainSize("capabilities", ascii); }
  lemma {:induction false} WordTools(ascii: bool) ensures EscapedSize("tools", ascii) == 5 { PlainSize("tools", ascii); }
  lemma {:induction false} WordListChanged(ascii: bool) ensures EscapedSize("listChanged", ascii) == 11 { PlainSize("listChanged", ascii); }
  lemma {:induction false} WordServerInfo(ascii: bool) ensures EscapedSize("serverInfo", ascii) == 10 { PlainSize("serverInfo", ascii); }
  lemma {:induction false} WordName(ascii: bool) ensures EscapedSize("name", ascii) == 4 { PlainSize("name", ascii); }
  lemma {:induction false} WordNotebookLauncher(ascii: bool) ensures EscapedSize("notebook-launcher", ascii) == 17 { PlainSize("notebook-launcher", ascii); }
  lemma {:induction false} WordVersion(ascii: bool) ensures EscapedSize("version", ascii) == 7 { PlainSize("version", ascii); }
  lemma {:induction false} Word_0_1_0(ascii: bool) ensures EscapedSize("0.1.0", ascii) == 5 { PlainSize("0.1.0", ascii); }

  lemma {:induction false} WordCode(code: string)
    requires code in {"-32700", "-32600", "-32601", "-32602", "-32603", "-32000"}
    ensures Width(code) == 6
  {
    WidthOfAscii(code);
  }
}
