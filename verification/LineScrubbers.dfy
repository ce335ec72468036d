/** The chain every log line goes through. */
module LineScrubbers {
  import opened Text
  import opened Scrubbers
  import opened KeyScrubber
  import opened AddressScrubber
  import opened FieldScrubber
  import opened LinkScrubber

  const FIELD_KEYS := ["password", "token", "access_token", "access_code", "passcode", "email", "host"]

  /** The rules applied before the address filters, in order. */
  const KEY_RULES := [
    Rule("SSID=", BLANKS, HIDDEN_MARK), Rule("PASS=", BLANKS, HIDDEN_MARK),
    Rule("connected with ", [','], HIDDEN_MARK), Rule("IP=", BLANKS, IP_MARK),
    Rule("ip: ", BLANKS, IP_MARK), Rule("mask: ", BLANKS, IP_MARK), Rule("gw: ", BLANKS, IP_MARK)]

  /** The first `n` key rules, one after the other. */
  function RulesApplied(s: string, n: nat): string
    requires n <= |KEY_RULES|
  {
    if n == 0 then s else Hidden(RulesApplied(s, n - 1), KEY_RULES[n - 1])
  }

  function FieldsApplied(s: string, n: nat): string
    requires n <= |FIELD_KEYS|
  {
    if n == 0 then s else FieldsHidden(FieldsApplied(s, n - 1), Needle(FIELD_KEYS[n - 1]))
  }

  /** Every filter sees what the ones before it left. */
  function WebScrubbed(text: string): string {
    var named := RulesApplied(LinksHidden(text, 0), |KEY_RULES|);
    FieldsApplied(MacScrubbed(AddressesHidden(named, false)), |FIELD_KEYS|)
  }

  /** A value that ends with a blank or a comma, and one that may hold blanks. */
  function Word(s: string, key: string, mark: string): string
    requires key != ""
  {
    Hidden(s, Rule(key, " \t\n\r,", mark))
  }

  function Field(s: string, name: string): string {
    FieldsHidden(s, "\"" + name + "\"")
  }

  lemma OneRule(s: string, n: nat, key: string, terminators: string, mark: string)
    requires n < |KEY_RULES| && KEY_RULES[n] == Rule(key, terminators, mark) && key != ""
    ensures RulesApplied(s, n + 1) == Hidden(RulesApplied(s, n), Rule(key, terminators, mark))
  {
    hide Hidden;
  }

  lemma RuleTable()
    ensures KEY_RULES == [
              Rule("SSID=", " \t\n\r,", "[hidden]"), Rule("PASS=", " \t\n\r,", "[hidden]"),
              Rule("connected with ", ",", "[hidden]"), Rule("IP=", " \t\n\r,", "[IP]"),
              Rule("ip: ", " \t\n\r,", "[IP]"), Rule("mask: ", " \t\n\r,", "[IP]"), Rule("gw: ", " \t\n\r,", "[IP]")]
  {
    assert BLANKS == " \t\n\r," && HIDDEN_MARK == "[hidden]" && IP_MARK == "[IP]" && [','] == ",";
  }

  lemma RulesInFull(s: string)
    ensures var a := Word(Word(s, "SSID=", "[hidden]"), "PASS=", "[hidden]");
      var b := Word(Hidden(a, Rule("connected with ", ",", "[hidden]")), "IP=", "[IP]");
      RulesApplied(s, 7) == Word(Word(Word(b, "ip: ", "[IP]"), "mask: ", "[IP]"), "gw: ", "[IP]")
  {
    RuleTable();
    NothingApplied(s);
    hide Hidden, RulesApplied, KEY_RULES;
    OneRule(s, 0, "SSID=", " \t\n\r,", "[hidden]");
    OneRule(s, 1, "PASS=", " \t\n\r,", "[hidden]");
    OneRule(s, 2, "connected with ", ",", "[hidden]");
    OneRule(s, 3, "IP=", " \t\n\r,", "[IP]");
    OneRule(s, 4, "ip: ", " \t\n\r,", "[IP]");
    OneRule(s, 5, "mask: ", " \t\n\r,", "[IP]");
    OneRule(s, 6, "gw: ", " \t\n\r,", "[IP]");
  }

  lemma NothingApplied(s: string)
    ensures RulesApplied(s, 0) == s && FieldsApplied(s, 0) == s && |KEY_RULES| == |FIELD_KEYS| == 7
  {
  }

  lemma OneField(s: string, n: nat, name: string)
    requires n < |FIELD_KEYS| && FIELD_KEYS[n] == name
    ensures FieldsApplied(s, n + 1) == Field(FieldsApplied(s, n), name)
  {
    assert QUOTE == "\"";
    hide FieldsHidden, FIELD_KEYS;
  }

  lemma FieldTable()
    ensures FIELD_KEYS == ["password", "token", "access_token", "access_code", "passcode", "email", "host"]
  {
  }

  lemma FieldsInFull(s: string)
    ensures var e := Field(Field(Field(Field(s, "password"), "token"), "access_token"), "access_code");
      FieldsApplied(s, 7) == Field(Field(Field(e, "passcode"), "email"), "host")
  {
    FieldTable();
    NothingApplied(s);
    hide Field, FieldsApplied, FIELD_KEYS;
    OneField(s, 0, "password");
    OneField(s, 1, "token");
    OneField(s, 2, "access_token");
    OneField(s, 3, "access_code");
    OneField(s, 4, "passcode");
    OneField(s, 5, "email");
    OneField(s, 6, "host");
  }

  /** The chain in full: links, then names and addresses behind a key, then bare addresses of either kind,
      then the fields. */
  lemma ChainInFull(text: string)
    ensures var a := Word(Word(LinksHidden(text, 0), "SSID=", "[hidden]"), "PASS=", "[hidden]");
      var b := Word(Hidden(a, Rule("connected with ", ",", "[hidden]")), "IP=", "[IP]");
      var c := Word(Word(Word(b, "ip: ", "[IP]"), "mask: ", "[IP]"), "gw: ", "[IP]");
      var d := MacScrubbed(AddressesHidden(c, false));
      var e := Field(Field(Field(Field(d, "password"), "token"), "access_token"), "access_code");
      WebScrubbed(text) == Field(Field(Field(e, "passcode"), "email"), "host")
  {
    hide MacScrubbed, Word, Hidden, AddressesHidden, Field, LinksHidden, RulesApplied, FieldsApplied, KEY_RULES,
         FIELD_KEYS;
    NothingApplied(text);
    RulesInFull(LinksHidden(text, 0));
    FieldsInFull(MacScrubbed(AddressesHidden(RulesApplied(LinksHidden(text, 0), 7), false)));
  }

  /** scrub_for_web: no hardware address reaches the log, although later filters edit the line again. */
  method ScrubForWeb(text: string) returns (s: string)
    ensures s == WebScrubbed(text) && NoMac(s)
  {
    hide NoMac, MacScrubbed, Hidden, AddressesHidden, FieldsHidden, LinksHidden, Needle;
    s := ScrubPresignedUrls(text);
    ghost var linked := s;
    for k := 0 to |KEY_RULES|
      invariant s == RulesApplied(linked, k)
    {
      s := ScrubKv(s, KEY_RULES[k]);
    }
    s := ScrubIpv4(s);
    NoMacSurvives(s);
    s := ScrubMac(s);
    ghost var masked := s;
    for k := 0 to |FIELD_KEYS|
      invariant s == FieldsApplied(masked, k) && NoMac(s)
    {
      s := ScrubJsonField(s, FIELD_KEYS[k]);
    }
  }

  // ----- lines with nothing to hide

  /** Nothing any filter looks for. */
  ghost predicate PlainLine(s: string) {
    && !Contains(s, SIGNATURE) && NoMac(s)
    && (forall k :: 0 <= k < |s| ==> !IsDigit(s[k]))
    && (forall n :: 0 <= n < |KEY_RULES| ==> !Contains(s, KEY_RULES[n].key))
    && (forall n :: 0 <= n < |FIELD_KEYS| ==> !Contains(s, Needle(FIELD_KEYS[n])))
  }

  lemma NoKeyNothingHidden(s: string, r: Rule)
    requires r.key != "" && !Contains(s, r.key)
    ensures Hidden(s, r) == s
  {
    hide Locate, OccursAt, Hidden, ValueEnd;
    HiddenFirst(s, r, Locate(s, r.key, 0));
  }

  lemma {:induction false} RulesKeepPlain(s: string, n: nat)
    requires n <= |KEY_RULES| && PlainLine(s)
    ensures RulesApplied(s, n) == s
  {
    hide Hidden, Contains, NoMac, Needle;
    if n > 0 {
      RulesKeepPlain(s, n - 1);
      NoKeyNothingHidden(s, KEY_RULES[n - 1]);
    }
  }

  lemma {:induction false} FieldsKeepPlain(s: string, n: nat)
    requires n <= |FIELD_KEYS| && PlainLine(s)
    ensures FieldsApplied(s, n) == s
  {
    hide FieldsHidden, Contains, NoMac, Needle;
    if n > 0 {
      FieldsKeepPlain(s, n - 1);
      NoKeyIsUntouched(s, FIELD_KEYS[n - 1]);
    }
  }

  lemma NoSignatureNoLink(s: string)
    requires !Contains(s, SIGNATURE)
    ensures NoSignedLink(s)
  {
    hide OccursAt;
    forall q: nat ensures !OccursAt(s, SIGNATURE, q) {
      if OccursAt(s, SIGNATURE, q) { SignatureAt(s, q); }
    }
  }

  /** A line with nothing to hide comes out of the chain as it went in. */
  lemma PlainLineIsKept(s: string)
    requires PlainLine(s)
    ensures WebScrubbed(s) == s
  {
    hide NoMac, MacScrubbed, AddressesHidden, LinksHidden, RulesApplied, FieldsApplied, Contains, Needle, NoSignedLink;
    NoSignatureNoLink(s);
    NoSignedLinkIsUntouched(s, 0);
    RulesKeepPlain(s, |KEY_RULES|);
    NoDigitIsUntouched(s, false);
    NoMacIsUntouched(s);
    FieldsKeepPlain(s, |FIELD_KEYS|);
  }
}
