/**
 * The configuration renderer, generate_config: one router's text from its
 * record and its interface bindings. Vendor "Cisco" gets line-oriented IOS
 * style; every other vendor gets Junos set statements.
 */
module ConfigGen {
  import opened Text
  import opened Records

  const Cisco: string := "Cisco"

  /** The lines that declare the router itself: hostname and loopback. */
  function HeaderLines(r: Router, vendor: string): seq<string> {
    if vendor == Cisco then
      ["hostname " + r.hostname, "!", "interface Loopback0", " ip address " + r.loopback + " 255.255.255.255", "!"]
    else
      ["set system host-name " + r.hostname, "set interfaces lo0" + " unit 0 family inet address " + r.loopback + "/32"]
  }

  /** The lines for one interface binding: an IOS stanza with MPLS enabled, or one set statement. */
  function StanzaLines(b: Binding, vendor: string): seq<string> {
    if vendor == Cisco then
      ["interface " + b.name, " ip address " + b.address + " " + b.mask, " mpls ip", " no shutdown", "!"]
    else
      ["set interfaces " + b.name + " unit 0 family inet address " + b.address + "/" + b.mask]
  }

  /** The stanzas of all bindings, in binding order. */
  function InterfaceLines(ifaces: seq<Binding>, vendor: string): seq<string>
  {
    if ifaces == [] then []
    else InterfaceLines(ifaces[..|ifaces| - 1], vendor) + StanzaLines(ifaces[|ifaces| - 1], vendor)
  }

  function ConfigLines(r: Router, ifaces: seq<Binding>, vendor: string): seq<string> {
    HeaderLines(r, vendor) + InterfaceLines(ifaces, vendor)
  }

  /** The configuration text: the configuration lines, each ended by a newline. */
  function Config(r: Router, ifaces: seq<Binding>, vendor: string): string {
    JoinLines(ConfigLines(r, ifaces, vendor))
  }

  /** Appending binding k's stanza text extends the text of the first k bindings to the first k + 1. */
  lemma AppendStanza(header: seq<string>, ifaces: seq<Binding>, k: nat, vendor: string)
    requires k < |ifaces|
    ensures JoinLines(header + InterfaceLines(ifaces[..k + 1], vendor))
         == JoinLines(header + InterfaceLines(ifaces[..k], vendor)) + JoinLines(StanzaLines(ifaces[k], vendor))
  {
    assert ifaces[..k + 1][..k] == ifaces[..k];
    assert header + InterfaceLines(ifaces[..k + 1], vendor)
        == header + InterfaceLines(ifaces[..k], vendor) + StanzaLines(ifaces[k], vendor);
    JoinLinesAppend(header + InterfaceLines(ifaces[..k], vendor), StanzaLines(ifaces[k], vendor));
  }

  /** The Cisco header, joined, is the text generate_config starts from. */
  lemma CiscoHeaderText(r: Router)
    ensures JoinLines(HeaderLines(r, Cisco))
         == "hostname " + r.hostname + "\n" + "!" + "\n" + "interface Loopback0" + "\n"
            + " ip address " + r.loopback + " 255.255.255.255" + "\n" + "!" + "\n"
  {
    JoinFive("hostname " + r.hostname, "!", "interface Loopback0", " ip address " + r.loopback + " 255.255.255.255", "!");
  }

  /** The set-style header, joined, is the text generate_config starts from. */
  lemma SetHeaderText(r: Router, vendor: string)
    requires vendor != Cisco
    ensures JoinLines(HeaderLines(r, vendor))
         == "set system host-name " + r.hostname + "\n"
            + "set interfaces lo0" + " unit 0 family inet address " + r.loopback + "/32" + "\n"
  {
    JoinTwo("set system host-name " + r.hostname, "set interfaces lo0" + " unit 0 family inet address " + r.loopback + "/32");
  }

  /** A Cisco stanza, joined, is the text generate_config appends for the binding. */
  lemma CiscoStanzaText(b: Binding)
    ensures JoinLines(StanzaLines(b, Cisco))
         == "interface " + b.name + "\n" + " ip address " + b.address + " " + b.mask + "\n"
            + " mpls ip" + "\n" + " no shutdown" + "\n" + "!" + "\n"
  {
    JoinFive("interface " + b.name, " ip address " + b.address + " " + b.mask, " mpls ip", " no shutdown", "!");
  }

  /** A set-style stanza, joined, is the text generate_config appends for the binding. */
  lemma SetStanzaText(b: Binding, vendor: string)
    requires vendor != Cisco
    ensures JoinLines(StanzaLines(b, vendor))
         == "set interfaces " + b.name + " unit 0 family inet address " + b.address + "/" + b.mask + "\n"
  {
    JoinOne("set interfaces " + b.name + " unit 0 family inet address " + b.address + "/" + b.mask);
  }

  /**
   * generate_config: starts from the header text and appends one stanza
   * per binding, in order. (The text literals are those of the source,
   * split at line ends.)
   */
  method GenerateConfig(r: Router, ifaces: seq<Binding>, vendor: string) returns (conf: string)
    ensures conf == Config(r, ifaces, vendor)
  {
    ghost var header := HeaderLines(r, vendor);
    assert header + InterfaceLines(ifaces[..0], vendor) == header;
    if vendor == Cisco {
      conf := "hostname " + r.hostname + "\n" + "!" + "\n" + "interface Loopback0" + "\n"
        + " ip address " + r.loopback + " 255.255.255.255" + "\n" + "!" + "\n";
      CiscoHeaderText(r);
      for k := 0 to |ifaces|
        invariant conf == JoinLines(header + InterfaceLines(ifaces[..k], vendor))
      {
        var b := ifaces[k];
        CiscoStanzaText(b);
        AppendStanza(header, ifaces, k, vendor);
        var stanza := "interface " + b.name + "\n" + " ip address " + b.address + " " + b.mask + "\n"
          + " mpls ip" + "\n" + " no shutdown" + "\n" + "!" + "\n";
        conf := conf + stanza;
      }
    } else {
      conf := "set system host-name " + r.hostname + "\n"
        + "set interfaces lo0" + " unit 0 family inet address " + r.loopback + "/32" + "\n";
      SetHeaderText(r, vendor);
      for k := 0 to |ifaces|
        invariant conf == JoinLines(header + InterfaceLines(ifaces[..k], vendor))
      {
        var b := ifaces[k];
        SetStanzaText(b, vendor);
        AppendStanza(header, ifaces, k, vendor);
        var stanza := "set interfaces " + b.name + " unit 0 family inet address " + b.address + "/" + b.mask + "\n";
        conf := conf + stanza;
      }
    }
    assert ifaces[..|ifaces|] == ifaces;
  }

  /** Cisco: the interface part is five lines per binding, binding k's stanza at lines 5k to 5k+4. */
  lemma {:induction false} CiscoInterfaceLines(ifaces: seq<Binding>)
    ensures |InterfaceLines(ifaces, Cisco)| == 5 * |ifaces|
    ensures forall k :: 0 <= k < |ifaces| ==>
      InterfaceLines(ifaces, Cisco)[5 * k..5 * k + 5] == StanzaLines(ifaces[k], Cisco)
    decreases |ifaces|
  {
    if ifaces != [] {
      var last := |ifaces| - 1;
      var init := ifaces[..last];
      CiscoInterfaceLines(init);
      var front, stanza := InterfaceLines(init, Cisco), StanzaLines(ifaces[last], Cisco);
      var lines := front + stanza;
      assert lines == InterfaceLines(ifaces, Cisco);
      forall k | 0 <= k < |ifaces|
        ensures lines[5 * k..5 * k + 5] == StanzaLines(ifaces[k], Cisco)
      {
        if k < last {
          var st := StanzaLines(init[k], Cisco);
          assert front[5 * k..5 * k + 5] == st;
          SliceLeft(front, stanza, 5 * k, 5 * k + 5);
          assert lines[5 * k..5 * k + 5] == st;
          assert ifaces[k] == init[k];
          assert StanzaLines(ifaces[k], Cisco) == st;
        } else {
          assert k == last && |front| == 5 * k && |stanza| == 5;
          SliceRight(front, stanza);
          assert lines[5 * k..5 * k + 5] == stanza;
        }
      }
    }
  }

  /** Any other vendor: the interface part is one line per binding, in order. */
  lemma {:induction false} SetInterfaceLines(ifaces: seq<Binding>, vendor: string)
    requires vendor != Cisco
    ensures var lines := InterfaceLines(ifaces, vendor);
      |lines| == |ifaces| && forall k :: 0 <= k < |ifaces| ==> lines[k] == StanzaLines(ifaces[k], vendor)[0]
    decreases |ifaces|
  {
    if ifaces != [] {
      var last := |ifaces| - 1;
      SetInterfaceLines(ifaces[..last], vendor);
      assert InterfaceLines(ifaces, vendor) == InterfaceLines(ifaces[..last], vendor) + StanzaLines(ifaces[last], vendor);
    }
  }

  /**
   * The Cisco layout: the hostname line, a Loopback0 stanza holding the
   * loopback with mask 255.255.255.255, then one five-line stanza per
   * binding, in binding order, each with MPLS enabled and no shutdown.
   */
  lemma CiscoLayout(r: Router, ifaces: seq<Binding>)
    ensures var lines := ConfigLines(r, ifaces, Cisco);
      && |lines| == 5 + 5 * |ifaces|
      && lines[0] == "hostname " + r.hostname && lines[1] == "!" && lines[2] == "interface Loopback0"
      && lines[3] == " ip address " + r.loopback + " 255.255.255.255" && lines[4] == "!"
      && forall k :: 0 <= k < |ifaces| ==>
           && lines[5 + 5 * k] == "interface " + ifaces[k].name
           && lines[6 + 5 * k] == " ip address " + ifaces[k].address + " " + ifaces[k].mask
           && lines[7 + 5 * k] == " mpls ip" && lines[8 + 5 * k] == " no shutdown" && lines[9 + 5 * k] == "!"
  {
    CiscoInterfaceLines(ifaces);
    forall k | 0 <= k < |ifaces| {
      CiscoBindingLines(r, ifaces, k);
    }
  }

  /** Binding k's stanza in the Cisco configuration, field by field. */
  lemma CiscoBindingLines(r: Router, ifaces: seq<Binding>, k: nat)
    requires k < |ifaces|
    ensures |ConfigLines(r, ifaces, Cisco)| == 5 + 5 * |ifaces|
    ensures var lines := ConfigLines(r, ifaces, Cisco);
      && lines[5 + 5 * k] == "interface " + ifaces[k].name
      && lines[6 + 5 * k] == " ip address " + ifaces[k].address + " " + ifaces[k].mask
      && lines[7 + 5 * k] == " mpls ip" && lines[8 + 5 * k] == " no shutdown" && lines[9 + 5 * k] == "!"
  {
    var header, body := HeaderLines(r, Cisco), InterfaceLines(ifaces, Cisco);
    var lines := header + body;
    assert |body| == 5 * |ifaces| && body[5 * k..5 * k + 5] == StanzaLines(ifaces[k], Cisco) by {
      CiscoInterfaceLines(ifaces);
    }
    assert |header| == 5;
    var block := body[5 * k..5 * k + 5];
    assert lines[5 + 5 * k] == body[5 * k] == block[0];
    assert lines[6 + 5 * k] == body[5 * k + 1] == block[1];
    assert lines[7 + 5 * k] == body[5 * k + 2] == block[2];
    assert lines[8 + 5 * k] == body[5 * k + 3] == block[3];
    assert lines[9 + 5 * k] == body[5 * k + 4] == block[4];
  }

  /**
   * The layout for any other vendor: the host-name line, the lo0 line with
   * the loopback as a /32, then exactly one set-interfaces line per binding,
   * in binding order.
   */
  lemma SetLayout(r: Router, ifaces: seq<Binding>, vendor: string)
    requires vendor != Cisco
    ensures var lines := ConfigLines(r, ifaces, vendor);
      && |lines| == 2 + |ifaces|
      && lines[0] == "set system host-name " + r.hostname
      && lines[1] == "set interfaces lo0" + " unit 0 family inet address " + r.loopback + "/32"
      && forall k :: 0 <= k < |ifaces| ==>
           lines[2 + k] == "set interfaces " + ifaces[k].name + " unit 0 family inet address "
                           + ifaces[k].address + "/" + ifaces[k].mask
  {
    var header, body := HeaderLines(r, vendor), InterfaceLines(ifaces, vendor);
    var lines := header + body;
    SetInterfaceLines(ifaces, vendor);
    forall k | 0 <= k < |ifaces|
      ensures lines[2 + k] == "set interfaces " + ifaces[k].name + " unit 0 family inet address "
                              + ifaces[k].address + "/" + ifaces[k].mask
    {
      assert lines[2 + k] == body[k];
    }
  }

  /** No field of the router or its bindings holds a newline. */
  predicate SingleLineFields(r: Router, ifaces: seq<Binding>) {
    && NoNewline(r.hostname) && NoNewline(r.loopback)
    && forall k :: 0 <= k < |ifaces| ==>
         NoNewline(ifaces[k].name) && NoNewline(ifaces[k].address) && NoNewline(ifaces[k].mask)
  }

  /** A stanza's lines hold no newline when the binding's fields hold none. */
  lemma StanzaSingle(b: Binding, vendor: string)
    requires NoNewline(b.name) && NoNewline(b.address) && NoNewline(b.mask)
    ensures forall i :: 0 <= i < |StanzaLines(b, vendor)| ==> NoNewline(StanzaLines(b, vendor)[i])
  {
    if vendor == Cisco {
      NoNewlineConcat("interface ", b.name);
      NoNewlineConcat(" ip address ", b.address);
      NoNewlineConcat(" ip address " + b.address, " ");
      NoNewlineConcat(" ip address " + b.address + " ", b.mask);
    } else {
      NoNewlineConcat("set interfaces ", b.name);
      NoNewlineConcat("set interfaces " + b.name, " unit 0 family inet address ");
      NoNewlineConcat("set interfaces " + b.name + " unit 0 family inet address ", b.address);
      NoNewlineConcat("set interfaces " + b.name + " unit 0 family inet address " + b.address, "/");
      NoNewlineConcat("set interfaces " + b.name + " unit 0 family inet address " + b.address + "/", b.mask);
    }
  }

  /** The header's lines hold no newline when the router's fields hold none. */
  lemma HeaderSingle(r: Router, vendor: string)
    requires NoNewline(r.hostname) && NoNewline(r.loopback)
    ensures forall i :: 0 <= i < |HeaderLines(r, vendor)| ==> NoNewline(HeaderLines(r, vendor)[i])
  {
    if vendor == Cisco {
      NoNewlineConcat("hostname ", r.hostname);
      NoNewlineConcat(" ip address ", r.loopback);
      NoNewlineConcat(" ip address " + r.loopback, " 255.255.255.255");
    } else {
      NoNewlineConcat("set system host-name ", r.hostname);
      NoNewlineConcat("set interfaces lo0", " unit 0 family inet address ");
      NoNewlineConcat("set interfaces lo0" + " unit 0 family inet address ", r.loopback);
      NoNewlineConcat("set interfaces lo0" + " unit 0 family inet address " + r.loopback, "/32");
    }
  }

  lemma {:induction false} InterfaceLinesSingle(ifaces: seq<Binding>, vendor: string)
    requires forall k :: 0 <= k < |ifaces| ==>
      NoNewline(ifaces[k].name) && NoNewline(ifaces[k].address) && NoNewline(ifaces[k].mask)
    ensures forall i :: 0 <= i < |InterfaceLines(ifaces, vendor)| ==> NoNewline(InterfaceLines(ifaces, vendor)[i])
    decreases |ifaces|
  {
    if ifaces != [] {
      var last := |ifaces| - 1;
      InterfaceLinesSingle(ifaces[..last], vendor);
      StanzaSingle(ifaces[last], vendor);
      var front, stanza := InterfaceLines(ifaces[..last], vendor), StanzaLines(ifaces[last], vendor);
      var lines := front + stanza;
      assert InterfaceLines(ifaces, vendor) == lines;
      forall i | 0 <= i < |lines|
        ensures NoNewline(lines[i])
      {
        if i < |front| {
          assert lines[i] == front[i];
        } else {
          assert lines[i] == stanza[i - |front|];
        }
      }
    }
  }

  /**
   * Reading the rendered text line by line gives back exactly the
   * configuration lines, so the layout lemmas describe the text itself.
   */
  lemma ConfigText(r: Router, ifaces: seq<Binding>, vendor: string)
    requires SingleLineFields(r, ifaces)
    ensures SplitLines(Config(r, ifaces, vendor)) == ConfigLines(r, ifaces, vendor)
  {
    InterfaceLinesSingle(ifaces, vendor);
    HeaderSingle(r, vendor);
    var header, body := HeaderLines(r, vendor), InterfaceLines(ifaces, vendor);
    var lines := header + body;
    forall i | 0 <= i < |lines|
      ensures NoNewline(lines[i])
    {
      if i < |header| {
        assert lines[i] == header[i];
      } else {
        assert lines[i] == body[i - |header|];
      }
    }
    SplitJoinLines(lines);
  }

  /** The keyword that opens the hostname declaration. */
  function HostnameKeyword(vendor: string): string {
    if vendor == Cisco then "hostname " else "set system host-name "
  }

  predicate StartsWith(s: string, p: string) {
    |p| <= |s| && s[..|p|] == p
  }

  lemma {:induction false} NoStanzaDeclaresHostname(ifaces: seq<Binding>, vendor: string)
    ensures forall i :: 0 <= i < |InterfaceLines(ifaces, vendor)| ==>
      !StartsWith(InterfaceLines(ifaces, vendor)[i], HostnameKeyword(vendor))
    decreases |ifaces|
  {
    if ifaces != [] {
      NoStanzaDeclaresHostname(ifaces[..|ifaces| - 1], vendor);
      var stanza := StanzaLines(ifaces[|ifaces| - 1], vendor);
      forall i | 0 <= i < |stanza|
        ensures !StartsWith(stanza[i], HostnameKeyword(vendor))
      {
        if vendor == Cisco {
          assert stanza[i][0] in {'i', ' ', '!'};
        } else {
          assert stanza[i][4] == 'i';
        }
      }
    }
  }

  /** The hostname is declared on the first line and on no other. */
  lemma HostnameDeclaredOnce(r: Router, ifaces: seq<Binding>, vendor: string)
    ensures var lines := ConfigLines(r, ifaces, vendor);
      && StartsWith(lines[0], HostnameKeyword(vendor))
      && forall i :: 0 < i < |lines| ==> !StartsWith(lines[i], HostnameKeyword(vendor))
  {
    var header := HeaderLines(r, vendor);
    NoStanzaDeclaresHostname(ifaces, vendor);
    assert header[0][..|HostnameKeyword(vendor)|] == HostnameKeyword(vendor);
    forall i | 0 < i < |header|
      ensures !StartsWith(header[i], HostnameKeyword(vendor))
    {
      if vendor == Cisco {
        assert header[i][0] in {'i', ' ', '!'};
      } else {
        assert header[i][4] == 'i';
      }
    }
  }
}
