/**
 * The XEP-0357 enable/disable request: the stanza tree the client builds for
 * one configured push app server and one scope (the user's own account or a
 * group-chat service domain), its serialisation as the DOM's `outerHTML`
 * prints it, and the decoder that reads the request back out of the tree.
 */
module PushStanza {
  import opened Results

  const NS_CLIENT := "jabber:client"
  const NS_PUSH := "urn:xmpp:push:0"
  const NS_XDATA := "jabber:x:data"
  const PUBLISH_OPTIONS := "http://jabber.org/protocol/pubsub#publish-options"

  /** One entry of the `push_app_servers` setting. */
  datatype AppServer = AppServer(jid: string, node: string, disable: bool, secret: Option<string>)

  /** Whose notifications are switched: the own account, or a group-chat domain. */
  datatype Scope = Account | GroupChat(domain: string)

  /** An XML attribute; attributes keep the order in which they were added. */
  datatype Attr = Attr(name: string, value: string)

  /** An XML node as the stanza builder produces it. */
  datatype Node = Element(name: string, attrs: seq<Attr>, children: seq<Node>) | Text(text: string)

  /** What an enable or disable request carries. */
  datatype Request = Request(server: AppServer, scope: Scope, id: string)

  // ---------------------------------------------------------------------------
  // Building the stanza

  /** The `<field var=…><value>…</value></field>` element of a data form. */
  function FormField(key: string, value: string): Node {
    Element("field", [Attr("var", key)], [Element("value", [], [Text(value)])])
  }

  /** The submitted data form of the publish-options FORM_TYPE that carries the secret. */
  function PublishOptionsForm(secret: string): Node {
    Element("x", [Attr("xmlns", NS_XDATA), Attr("type", "submit")],
            [FormField("FORM_TYPE", PUBLISH_OPTIONS), FormField("secret", secret)])
  }

  /** The `enable` (or, for a server configured with `disable`, the `disable`) child. */
  function Command(server: AppServer): Node {
    var attrs := [Attr("xmlns", NS_PUSH), Attr("jid", server.jid), Attr("node", server.node)];
    if server.disable then Element("disable", attrs, [])
    else match server.secret
      case None => Element("enable", attrs, [])
      case Some(t) => Element("enable", attrs, [PublishOptionsForm(t)])
  }

  /** `type` and `xmlns` from the IQ builder, `to` only for a group-chat domain, then the id. */
  function IqAttrs(scope: Scope, id: string): seq<Attr> {
    match scope
    case Account => [Attr("type", "set"), Attr("xmlns", NS_CLIENT), Attr("id", id)]
    case GroupChat(d) => [Attr("type", "set"), Attr("xmlns", NS_CLIENT), Attr("to", d), Attr("id", id)]
  }

  /** The IQ of type `set` that enables or disables push for `scope` at `server`. */
  function PushIq(server: AppServer, scope: Scope, id: string): Node {
    Element("iq", IqAttrs(scope, id), [Command(server)])
  }

  // ---------------------------------------------------------------------------
  // Serialisation (`outerHTML`): an element without children is self-closing.

  function AttrText(a: Attr): string {
    " " + a.name + "=\"" + a.value + "\""
  }

  function SerializeAttrs(attrs: seq<Attr>): string {
    if attrs == [] then "" else AttrText(attrs[0]) + SerializeAttrs(attrs[1..])
  }

  function Serialize(n: Node): string
    decreases n, 1
  {
    match n
    case Text(t) => t
    case Element(name, attrs, children) =>
      "<" + name + SerializeAttrs(attrs)
      + (if children == [] then "/>" else ">" + SerializeChildren(children) + "</" + name + ">")
  }

  function SerializeChildren(ns: seq<Node>): string
    decreases ns, 0
  {
    if ns == [] then "" else Serialize(ns[0]) + SerializeChildren(ns[1..])
  }

  /** The text of the request stanza that goes on the wire. */
  function StanzaText(server: AppServer, scope: Scope, id: string): string {
    Serialize(PushIq(server, scope, id))
  }

  // ---------------------------------------------------------------------------
  // Reference: the expected stanza text written out as a template, the way the
  // expected `outerHTML` strings spell it, with the configured values spliced in.

  const IQ_OPEN := "<iq type=\"set\" xmlns=\"" + NS_CLIENT + "\""

  function ExpectedFieldText(key: string, value: string): string {
    "<field var=\"" + key + "\">" + ("<value>" + value + "</value>") + "</field>"
  }

  function ExpectedFormText(secret: string): string {
    "<x xmlns=\"" + NS_XDATA + "\" type=\"submit\">"
    + ExpectedFieldText("FORM_TYPE", PUBLISH_OPTIONS)
    + ExpectedFieldText("secret", secret)
    + "</x>"
  }

  function ExpectedCommandAttrs(server: AppServer): string {
    " xmlns=\"" + NS_PUSH + "\" jid=\"" + server.jid + "\" node=\"" + server.node + "\""
  }

  function ExpectedCommandText(server: AppServer): string {
    if server.disable then "<disable" + ExpectedCommandAttrs(server) + "/>"
    else match server.secret
      case None => "<enable" + ExpectedCommandAttrs(server) + "/>"
      case Some(t) => "<enable" + ExpectedCommandAttrs(server) + ">" + ExpectedFormText(t) + "</enable>"
  }

  function ExpectedToText(scope: Scope): string {
    match scope case Account => "" case GroupChat(d) => " to=\"" + d + "\""
  }

  function ExpectedIdText(id: string): string {
    " id=\"" + id + "\""
  }

  function ExpectedText(server: AppServer, scope: Scope, id: string): string {
    IQ_OPEN + ExpectedToText(scope) + ExpectedIdText(id) + ">" + ExpectedCommandText(server) + "</iq>"
  }

  // Unfolding the serialiser on short literal lists.

  lemma Attrs1(a: Attr)
    ensures SerializeAttrs([a]) == AttrText(a)
  {
    assert [a][1..] == [];
  }

  lemma Attrs2(a: Attr, b: Attr)
    ensures SerializeAttrs([a, b]) == AttrText(a) + AttrText(b)
  {
    assert [a, b][1..] == [b];
    Attrs1(b);
  }

  lemma Attrs3(a: Attr, b: Attr, c: Attr)
    ensures SerializeAttrs([a, b, c]) == AttrText(a) + AttrText(b) + AttrText(c)
  {
    assert [a, b, c][1..] == [b, c];
    Attrs2(b, c);
  }

  lemma Attrs4(a: Attr, b: Attr, c: Attr, d: Attr)
    ensures SerializeAttrs([a, b, c, d]) == AttrText(a) + AttrText(b) + AttrText(c) + AttrText(d)
  {
    assert [a, b, c, d][1..] == [b, c, d];
    Attrs3(b, c, d);
  }

  lemma Children1(n: Node)
    ensures SerializeChildren([n]) == Serialize(n)
  {
    assert [n][1..] == [];
  }

  lemma Children2(n: Node, m: Node)
    ensures SerializeChildren([n, m]) == Serialize(n) + Serialize(m)
  {
    assert [n, m][1..] == [m];
    Children1(m);
  }

  // Regrouping lemmas: the text is passed in as parameters, so the solver
  // compares a few short literals instead of whole expanded strings.

  lemma FormAttrsShape(ns: string, s: string)
    requires s == AttrText(Attr("xmlns", ns)) + AttrText(Attr("type", "submit"))
    ensures s == " xmlns=\"" + ns + "\" type=\"submit\""
  {
  }

  lemma FormShape(ns: string, attrs: string, f1: string, f2: string)
    requires attrs == " xmlns=\"" + ns + "\" type=\"submit\""
    ensures "<" + "x" + attrs + ">" + (f1 + f2) + "</" + "x" + ">"
         == "<x xmlns=\"" + ns + "\" type=\"submit\">" + f1 + f2 + "</x>"
  {
    assert "<" + "x" + attrs + ">" == "<x xmlns=\"" + ns + "\" type=\"submit\">";
  }

  lemma CommandAttrsShape(ns: string, jid: string, node: string, s: string)
    requires s == AttrText(Attr("xmlns", ns)) + AttrText(Attr("jid", jid)) + AttrText(Attr("node", node))
    ensures s == " xmlns=\"" + ns + "\" jid=\"" + jid + "\" node=\"" + node + "\""
  {
  }

  lemma ParentShape(name: string, attrs: string, body: string)
    ensures "<" + name + attrs + ">" + body + "</" + name + ">"
         == ("<" + name) + attrs + ">" + body + ("</" + name + ">")
  {
  }

  lemma IqAttrsShape(ns: string, to: string, id: string, s: string)
    requires s == AttrText(Attr("type", "set")) + AttrText(Attr("xmlns", ns)) + to + AttrText(Attr("id", id))
    ensures s == " type=\"set\" xmlns=\"" + ns + "\"" + (to + ExpectedIdText(id))
  {
  }

  lemma IqShape(ns: string, rest: string, attrs: string, body: string)
    requires attrs == " type=\"set\" xmlns=\"" + ns + "\"" + rest
    ensures "<" + "iq" + attrs + ">" + body + "</" + "iq" + ">"
         == "<iq type=\"set\" xmlns=\"" + ns + "\"" + rest + ">" + body + "</iq>"
  {
    var open := " type=\"set\" xmlns=\"";
    assert "<" + "iq" + open == "<iq type=\"set\" xmlns=\"";
    assert "</" + "iq" + ">" == "</iq>";
    assert "<" + "iq" + attrs == ("<" + "iq" + open) + ns + "\"" + rest;
  }

  lemma ValueShape(value: string)
    ensures "<" + "value" + "" + ">" + value + "</" + "value" + ">" == "<value>" + value + "</value>"
  {
    assert "<" + "value" + "" + ">" == "<value>";
  }

  lemma FieldShape(key: string, attrs: string, inner: string)
    requires attrs == AttrText(Attr("var", key))
    ensures "<" + "field" + attrs + ">" + inner + "</" + "field" + ">"
         == "<field var=\"" + key + "\">" + inner + "</field>"
  {
    assert "<" + "field" + " " + "var" + "=\"" == "<field var=\"";
    assert "\"" + ">" == "\">";
    assert "<" + "field" + attrs + ">" == ("<" + "field" + " " + "var" + "=\"") + key + ("\"" + ">");
  }

  lemma FormFieldText(key: string, value: string)
    ensures Serialize(FormField(key, value)) == ExpectedFieldText(key, value)
  {
    var v := Element("value", [], [Text(value)]);
    Children1(Text(value));
    assert SerializeAttrs([]) == "";
    assert Serialize(v) == "<" + "value" + "" + ">" + value + "</" + "value" + ">";
    ValueShape(value);
    var a, b := SerializeAttrs([Attr("var", key)]), Serialize(v);
    Attrs1(Attr("var", key));
    Children1(v);
    assert Serialize(FormField(key, value)) == "<" + "field" + a + ">" + b + "</" + "field" + ">";
    FieldShape(key, a, b);
  }

  lemma FormText(t: string)
    ensures Serialize(PublishOptionsForm(t)) == ExpectedFormText(t)
  {
    var f1, f2 := FormField("FORM_TYPE", PUBLISH_OPTIONS), FormField("secret", t);
    FormFieldText("FORM_TYPE", PUBLISH_OPTIONS);
    FormFieldText("secret", t);
    Attrs2(Attr("xmlns", NS_XDATA), Attr("type", "submit"));
    FormAttrsShape(NS_XDATA, SerializeAttrs([Attr("xmlns", NS_XDATA), Attr("type", "submit")]));
    Children2(f1, f2);
    FormShape(NS_XDATA, SerializeAttrs([Attr("xmlns", NS_XDATA), Attr("type", "submit")]),
              Serialize(f1), Serialize(f2));
  }

  lemma CommandAttrsText(server: AppServer)
    ensures SerializeAttrs([Attr("xmlns", NS_PUSH), Attr("jid", server.jid), Attr("node", server.node)])
         == ExpectedCommandAttrs(server)
  {
    var attrs := [Attr("xmlns", NS_PUSH), Attr("jid", server.jid), Attr("node", server.node)];
    Attrs3(attrs[0], attrs[1], attrs[2]);
    CommandAttrsShape(NS_PUSH, server.jid, server.node, SerializeAttrs(attrs));
  }

  lemma EnableWithFormText(server: AppServer)
    requires !server.disable && server.secret.Some?
    ensures Serialize(Command(server)) == ExpectedCommandText(server)
  {
    var t := server.secret.value;
    var attrs := [Attr("xmlns", NS_PUSH), Attr("jid", server.jid), Attr("node", server.node)];
    var form := PublishOptionsForm(t);
    assert Command(server) == Element("enable", attrs, [form]);
    var a, b := SerializeAttrs(attrs), Serialize(form);
    CommandAttrsText(server);
    FormText(t);
    Children1(form);
    assert Serialize(Command(server)) == "<" + "enable" + a + ">" + b + "</" + "enable" + ">";
    ParentShape("enable", a, b);
    assert "<" + "enable" == "<enable" && "</" + "enable" + ">" == "</enable>";
    assert ExpectedCommandText(server) == "<enable" + a + ">" + b + "</enable>";
  }

  lemma CommandTextMatches(server: AppServer)
    ensures Serialize(Command(server)) == ExpectedCommandText(server)
  {
    if !server.disable && server.secret.Some? {
      EnableWithFormText(server);
    } else {
      CommandAttrsText(server);
    }
  }

  lemma IqTextMatches(scope: Scope, id: string, body: string)
    ensures Serialize(Element("iq", IqAttrs(scope, id), [Text(body)]))
         == IQ_OPEN + ExpectedToText(scope) + ExpectedIdText(id) + ">" + body + "</iq>"
  {
    var to := ExpectedToText(scope);
    var attrs := IqAttrs(scope, id);
    IqAttrsText(scope, id);
    var a := SerializeAttrs(attrs);
    Children1(Text(body));
    assert Serialize(Element("iq", attrs, [Text(body)])) == "<" + "iq" + a + ">" + body + "</" + "iq" + ">";
    IqShape(NS_CLIENT, to + ExpectedIdText(id), a, body);
    assert IQ_OPEN + to + ExpectedIdText(id) == IQ_OPEN + (to + ExpectedIdText(id));
  }

  lemma IqAttrsText(scope: Scope, id: string)
    ensures SerializeAttrs(IqAttrs(scope, id))
         == " type=\"set\" xmlns=\"" + NS_CLIENT + "\"" + (ExpectedToText(scope) + ExpectedIdText(id))
  {
    var to := ExpectedToText(scope);
    var attrs := IqAttrs(scope, id);
    if scope.Account? {
      Attrs3(attrs[0], attrs[1], attrs[2]);
      assert SerializeAttrs(attrs) == AttrText(attrs[0]) + AttrText(attrs[1]) + to + AttrText(attrs[2]);
    } else {
      Attrs4(attrs[0], attrs[1], attrs[2], attrs[3]);
    }
    IqAttrsShape(NS_CLIENT, to, id, SerializeAttrs(attrs));
  }

  /** The built stanza serialises to exactly the expected text, for every configuration, scope and id. */
  lemma StanzaMatchesExpected(server: AppServer, scope: Scope, id: string)
    ensures StanzaText(server, scope, id) == ExpectedText(server, scope, id)
  {
    var body := Serialize(Command(server));
    IqTextMatches(scope, id, body);
    CommandTextMatches(server);
    Children1(Command(server));
    Children1(Text(body));
    SameChildrenText("iq", IqAttrs(scope, id), [Command(server)], [Text(body)]);
  }

  lemma SameChildrenText(name: string, attrs: seq<Attr>, c1: seq<Node>, c2: seq<Node>)
    requires c1 != [] && c2 != [] && SerializeChildren(c1) == SerializeChildren(c2)
    ensures Serialize(Element(name, attrs, c1)) == Serialize(Element(name, attrs, c2))
  {
  }

  /**
   * The group-chat stanza is the account stanza with ` to="<domain>"` inserted
   * right after the opening `xmlns` attribute; nothing else differs.
   */
  lemma GroupChatInsertsTo(server: AppServer, domain: string, id: string)
    ensures |IQ_OPEN| <= |StanzaText(server, Account, id)|
    ensures StanzaText(server, Account, id)[..|IQ_OPEN|] == IQ_OPEN
    ensures StanzaText(server, GroupChat(domain), id)
         == IQ_OPEN + (" to=\"" + domain + "\"") + StanzaText(server, Account, id)[|IQ_OPEN|..]
  {
    var to, idText, body := " to=\"" + domain + "\"", ExpectedIdText(id), ExpectedCommandText(server);
    StanzaMatchesExpected(server, Account, id);
    StanzaMatchesExpected(server, GroupChat(domain), id);
    assert ExpectedText(server, Account, id) == IQ_OPEN + "" + idText + ">" + body + "</iq>";
    assert ExpectedText(server, GroupChat(domain), id) == IQ_OPEN + to + idText + ">" + body + "</iq>";
    SpliceShape(IQ_OPEN, to, idText, body);
  }

  lemma SpliceShape(open: string, to: string, idText: string, body: string)
    ensures var rest := idText + ">" + body + "</iq>";
      && open + "" + idText + ">" + body + "</iq>" == open + rest
      && (open + rest)[..|open|] == open
      && (open + rest)[|open|..] == rest
      && open + to + idText + ">" + body + "</iq>" == open + to + rest
  {
  }

  // ---------------------------------------------------------------------------
  // Reading a request back out of a stanza tree

  /** The value of the first attribute called `key`, if any. */
  function Attribute(attrs: seq<Attr>, key: string): (r: Option<string>)
    ensures r.Some? <==> exists i :: 0 <= i < |attrs| && attrs[i].name == key
    ensures r.Some? ==> exists i :: 0 <= i < |attrs| && attrs[i] == Attr(key, r.value)
                                  && forall j :: 0 <= j < i ==> attrs[j].name != key
  {
    if attrs == [] then None
    else if attrs[0].name == key then Some(attrs[0].value)
    else
      var r := Attribute(attrs[1..], key);
      assert forall i :: 1 <= i < |attrs| ==> attrs[i] == attrs[1..][i - 1];
      r
  }

  /** The first attribute called `key` decides the lookup. */
  lemma {:induction false} AttributeAt(attrs: seq<Attr>, key: string, i: nat)
    requires i < |attrs| && attrs[i].name == key
    requires forall j :: 0 <= j < i ==> attrs[j].name != key
    ensures Attribute(attrs, key) == Some(attrs[i].value)
  {
    if i > 0 {
      assert attrs[0].name != key;
      AttributeAt(attrs[1..], key, i - 1);
    }
  }

  /** The text of a `<field var=key><value>text</value></field>` element. */
  function FieldValue(n: Node, key: string): Option<string> {
    if n.Element? && n.name == "field" && n.attrs == [Attr("var", key)]
       && |n.children| == 1 && n.children[0].Element? && n.children[0].name == "value"
       && n.children[0].attrs == [] && |n.children[0].children| == 1
       && n.children[0].children[0].Text?
    then Some(n.children[0].children[0].text)
    else None
  }

  /** The secret of a publish-options form, if `n` is one. */
  function FormSecret(n: Node): Option<string> {
    if n.Element? && n.name == "x" && Attribute(n.attrs, "xmlns") == Some(NS_XDATA)
       && Attribute(n.attrs, "type") == Some("submit") && |n.children| == 2
       && FieldValue(n.children[0], "FORM_TYPE") == Some(PUBLISH_OPTIONS)
    then FieldValue(n.children[1], "secret")
    else None
  }

  function DecodeCommand(n: Node): Option<AppServer> {
    if !n.Element? || (n.name != "enable" && n.name != "disable")
       || Attribute(n.attrs, "xmlns") != Some(NS_PUSH)
       || Attribute(n.attrs, "jid").None? || Attribute(n.attrs, "node").None?
    then None
    else
      var jid, node := Attribute(n.attrs, "jid").value, Attribute(n.attrs, "node").value;
      if n.children == [] then Some(AppServer(jid, node, n.name == "disable", None))
      else if n.name == "enable" && |n.children| == 1 && FormSecret(n.children[0]).Some? then
        Some(AppServer(jid, node, false, FormSecret(n.children[0])))
      else None
  }

  /** The request a stanza carries, or None when it is not a push enable/disable IQ. */
  function DecodeRequest(n: Node): Option<Request> {
    if !n.Element? || n.name != "iq" || Attribute(n.attrs, "type") != Some("set")
       || Attribute(n.attrs, "xmlns") != Some(NS_CLIENT)
       || Attribute(n.attrs, "id").None? || |n.children| != 1
    then None
    else
      var scope := match Attribute(n.attrs, "to") case None => Account case Some(d) => GroupChat(d);
      match DecodeCommand(n.children[0])
      case None => None
      case Some(server) => Some(Request(server, scope, Attribute(n.attrs, "id").value))
  }

  /** What of a configuration reaches the wire: a `disable` request carries no secret. */
  function Carried(server: AppServer): AppServer {
    if server.disable then server.(secret := None) else server
  }

  lemma FormSecretInverts(secret: string)
    ensures FormSecret(PublishOptionsForm(secret)) == Some(secret)
  {
    var form := PublishOptionsForm(secret);
    AttributeAt(form.attrs, "xmlns", 0);
    AttributeAt(form.attrs, "type", 1);
    assert FieldValue(form.children[0], "FORM_TYPE") == Some(PUBLISH_OPTIONS);
    assert FieldValue(form.children[1], "secret") == Some(secret);
  }

  lemma CommandAttrsDecoded(jid: string, node: string)
    ensures var attrs := [Attr("xmlns", NS_PUSH), Attr("jid", jid), Attr("node", node)];
      && Attribute(attrs, "xmlns") == Some(NS_PUSH)
      && Attribute(attrs, "jid") == Some(jid)
      && Attribute(attrs, "node") == Some(node)
  {
    var attrs := [Attr("xmlns", NS_PUSH), Attr("jid", jid), Attr("node", node)];
    AttributeAt(attrs, "xmlns", 0);
    AttributeAt(attrs, "jid", 1);
    AttributeAt(attrs, "node", 2);
  }

  lemma DecodeCommandInverts(server: AppServer)
    ensures DecodeCommand(Command(server)) == Some(Carried(server))
  {
    CommandAttrsDecoded(server.jid, server.node);
    if !server.disable && server.secret.Some? {
      FormSecretInverts(server.secret.value);
    }
  }

  /**
   * The stanza carries the whole request: decoding it gives back the app
   * server's jid and node, enable versus disable, the secret of an enable
   * request, the scope (a `to` attribute exactly for a group-chat domain) and
   * the correlation id.
   */
  lemma DecodeInvertsPushIq(server: AppServer, scope: Scope, id: string)
    ensures DecodeRequest(PushIq(server, scope, id)) == Some(Request(Carried(server), scope, id))
  {
    IqAttrsDecoded(scope, id);
    DecodeCommandInverts(server);
  }

  lemma AccountAttrsDecoded(id: string)
    ensures var attrs := IqAttrs(Account, id);
      && Attribute(attrs, "type") == Some("set") && Attribute(attrs, "xmlns") == Some(NS_CLIENT)
      && Attribute(attrs, "id") == Some(id) && Attribute(attrs, "to") == None
  {
    var attrs := IqAttrs(Account, id);
    AttributeAt(attrs, "type", 0);
    AttributeAt(attrs, "xmlns", 1);
    AttributeAt(attrs, "id", 2);
    assert forall i :: 0 <= i < |attrs| ==> attrs[i].name != "to";
  }

  lemma GroupChatAttrsDecoded(domain: string, id: string)
    ensures var attrs := IqAttrs(GroupChat(domain), id);
      && Attribute(attrs, "type") == Some("set") && Attribute(attrs, "xmlns") == Some(NS_CLIENT)
      && Attribute(attrs, "id") == Some(id) && Attribute(attrs, "to") == Some(domain)
  {
    var attrs := IqAttrs(GroupChat(domain), id);
    AttributeAt(attrs, "type", 0);
    AttributeAt(attrs, "xmlns", 1);
    AttributeAt(attrs, "to", 2);
    AttributeAt(attrs, "id", 3);
  }

  lemma IqAttrsDecoded(scope: Scope, id: string)
    ensures Attribute(IqAttrs(scope, id), "type") == Some("set")
    ensures Attribute(IqAttrs(scope, id), "xmlns") == Some(NS_CLIENT)
    ensures Attribute(IqAttrs(scope, id), "id") == Some(id)
    ensures Attribute(IqAttrs(scope, id), "to") == (if scope.Account? then None else Some(scope.domain))
  {
    if scope.Account? {
      AccountAttrsDecoded(id);
    } else {
      GroupChatAttrsDecoded(scope.domain, id);
    }
  }
}
