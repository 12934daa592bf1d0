/** Users and messages, and their text form.  The JSON library and the hash that
    makes identifiers are values of type `Platform`; the laws the store relies on
    are `Platform.Lawful`, which `ServerPlatform` proves of the ones it uses. */
module Records {
  datatype Option<+T> = None | Some(value: T)

  /** What a computation gives, or that it ended in an exception. */
  datatype Attempt<+T> = Raised | Done(value: T) {
    predicate IsFailure() { Raised? }
    function PropagateFailure<U>(): (a: Attempt<U>)
      requires IsFailure()
    {
      Raised
    }
    function Extract(): (v: T)
      requires !IsFailure()
    {
      value
    }
  }

  /** What all computations give, or an exception if one of them raises it. */
  function Collect<T>(xs: seq<Attempt<T>>): (a: Attempt<seq<T>>)
    ensures a.Done? <==> forall i :: 0 <= i < |xs| ==> xs[i].Done?
    ensures a.Done? ==> |a.value| == |xs| && forall i :: 0 <= i < |xs| ==> a.value[i] == xs[i].value
  {
    if forall i :: 0 <= i < |xs| ==> xs[i].Done? then
      Done(seq(|xs|, i requires 0 <= i < |xs| && xs[i].Done? => xs[i].value))
    else Raised
  }

  lemma CollectConcat<T>(xs: seq<Attempt<T>>, ys: seq<Attempt<T>>)
    ensures Collect(xs + ys) ==
            if Collect(xs).Done? && Collect(ys).Done? then Done(Collect(xs).value + Collect(ys).value) else Raised
  {
    if Collect(xs + ys).Done? {
      assert forall i :: 0 <= i < |xs| ==> xs[i] == (xs + ys)[i];
      assert forall i :: 0 <= i < |ys| ==> ys[i] == (xs + ys)[|xs| + i];
      assert Collect(xs + ys).value == Collect(xs).value + Collect(ys).value;
    }
  }

  /** A member of a parsed object; of a number only the text it prints as is kept, and of an
      array or object only that it is one. */
  datatype Value = Text(text: string) | Flag(flag: bool) | Number(shown: string) | Null | Nested
  type Json = map<string, Value>

  const SEPARATOR: char := '#'
  const NUL: char := 0 as char

  /** `Json::Value::asString`. */
  function AsText(v: Value): (s: Attempt<string>) {
    match v
    case Text(t) => Done(t)
    case Flag(b) => Done(if b then "true" else "false")
    case Number(t) => Done(t)
    case Null => Done("")
    case Nested => Raised
  }

  /** `Json::Value::get(key, "").asString()`. */
  function GetText(o: Json, key: string): (s: Attempt<string>) {
    if key in o then AsText(o[key]) else Done("")
  }

  predicate NoNul(s: string) { NUL !in s }

  /** What the server writes: strings and booleans, under names without a NUL. */
  ghost predicate Flat(o: Json) {
    forall k :: k in o ==> NoNul(k) && (o[k].Text? || o[k].Flag?)
  }

  /** Whether a separator occurs in a member name or in a text member. */
  ghost predicate Mentions(o: Json, c: char) {
    exists k :: k in o && (c in k || (o[k].Text? && c in o[k].text))
  }

  /** What `Json::Reader::parse` makes of a text, as far as `get` can tell: nothing, an object
      (a null has no members either), or something else, of which `get` raises an exception. */
  datatype Parse = Failed | Object(members: Json) | Other

  predicate IsLowerHex(c: char) {
    '0' <= c <= '9' || 'a' <= c <= 'f'
  }

  /** The shape of every MD5 hex digest. */
  predicate IsDigest(s: string) {
    |s| == 32 && forall i :: 0 <= i < |s| ==> IsLowerHex(s[i])
  }

  datatype Platform = Platform(
    write: Json -> string,    // Json::Value::toStyledString
    read: string -> Parse,    // Json::Reader::parse
    digest: string -> string) // md5
  {
    ghost predicate Lawful() {
      && (forall o: Json :: Flat(o) ==> read(write(o)) == Object(o))
      && (forall o: Json :: Flat(o) ==> WellWritten(write(o)))
      && (forall o: Json :: Flat(o) ==> (SEPARATOR in write(o) <==> Mentions(o, SEPARATOR)))
      && (forall s: string :: IsDigest(digest(s)))
    }
  }

  /** A written object opens with a brace and does not end with a separator. */
  predicate WellWritten(s: string) {
    s != "" && s[0] == '{' && s[|s| - 1] != SEPARATOR
  }

  datatype User = User(
    id: string,
    name: string,
    phone: string,
    online: bool,
    lastSeen: string,
    photo: string,
    place: string,
    token: string,
    password: string)

  datatype Message = Message(id: string, body: string, sender: string, date: string)

  const NO_USER_ID := "UsarioInvalido"

  /** `Usuario::Usuario()`: the member initialisers of the class. */
  const NoUser := User(NO_USER_ID, "", "", true, "", "default", "desconocida", "", "")

  /** `Mensaje::Mensaje(cuerpo, idUsuarioEmisor, fecha)`. */
  function NewMessage(p: Platform, body: string, sender: string, date: string): (m: Message) {
    Message(p.digest(sender + date), body, sender, date)
  }

  function UserJson(u: User): (o: Json) {
    map["Id" := Text(u.id), "Nombre" := Text(u.name), "Telefono" := Text(u.phone),
        "EstadoDeConexion" := Flag(u.online), "Ultima Conexion" := Text(u.lastSeen),
        "FotoDePerfil" := Text(u.photo), "Localizacion" := Text(u.place),
        "Token" := Text(u.token), "Password" := Text(u.password)]
  }

  function WriteUser(p: Platform, u: User): (s: string) {
    p.write(UserJson(u))
  }

  /** `Usuario::deserealizar`: a failed parse leaves the initial members. */
  function ReadUser(p: Platform, s: string): (u: Attempt<User>) {
    match p.read(s)
    case Failed => Done(NoUser.(id := ""))
    case Other => Raised
    case Object(o) => UserOf(o)
  }

  function UserOf(o: Json): (u: Attempt<User>) {
    var id :- GetText(o, "Id");
    var name :- GetText(o, "Nombre");
    var phone :- GetText(o, "Telefono");
    var online :- GetText(o, "EstadoDeConexion");
    var lastSeen :- GetText(o, "Ultima Conexion");
    var photo :- GetText(o, "FotoDePerfil");
    var place :- GetText(o, "Localizacion");
    var token :- GetText(o, "Token");
    var password :- GetText(o, "Password");
    Done(User(id, name, phone, online == "true", lastSeen, photo, place, token, password))
  }

  function MessageJson(m: Message): (o: Json) {
    map["Id" := Text(m.id), "Cuerpo" := Text(m.body),
        "IdUsuarioEmisor" := Text(m.sender), "Fecha" := Text(m.date)]
  }

  function WriteMessage(p: Platform, m: Message): (s: string) {
    p.write(MessageJson(m))
  }

  /** A message of which nothing could be read. */
  const BLANK := Message("", "", "", "")

  /** `Mensaje::deserealizar`: a failed parse leaves every member empty. */
  function ReadMessage(p: Platform, s: string): (m: Attempt<Message>) {
    match p.read(s)
    case Failed => Done(BLANK)
    case Other => Raised
    case Object(o) => MessageOf(o)
  }

  function MessageOf(o: Json): (m: Attempt<Message>) {
    var id :- GetText(o, "Id");
    var body :- GetText(o, "Cuerpo");
    var sender :- GetText(o, "IdUsuarioEmisor");
    var date :- GetText(o, "Fecha");
    Done(Message(id, body, sender, date))
  }

  lemma FlatWith(o: Json, k: string, v: Value)
    requires Flat(o) && NoNul(k) && (v.Text? || v.Flag?)
    ensures Flat(o[k := v])
  {
  }

  lemma FlatNone()
    ensures Flat(map[])
  {
  }

  lemma UserNames()
    ensures NoNul("Id") && NoNul("Nombre") && NoNul("Telefono") && NoNul("EstadoDeConexion")
    ensures NoNul("Ultima Conexion") && NoNul("FotoDePerfil") && NoNul("Localizacion")
    ensures NoNul("Token") && NoNul("Password")
  {
  }

  lemma UserIsFlat(u: User)
    ensures Flat(UserJson(u))
  {
    hide Flat, NoNul;
    UserNames();
    FlatNone();
    var a: Json := map[];
    var b := a["Id" := Text(u.id)]["Nombre" := Text(u.name)]["Telefono" := Text(u.phone)];
    FlatWith(a, "Id", Text(u.id));
    FlatWith(a["Id" := Text(u.id)], "Nombre", Text(u.name));
    FlatWith(a["Id" := Text(u.id)]["Nombre" := Text(u.name)], "Telefono", Text(u.phone));
    var c := b["EstadoDeConexion" := Flag(u.online)]["Ultima Conexion" := Text(u.lastSeen)];
    FlatWith(b, "EstadoDeConexion", Flag(u.online));
    FlatWith(b["EstadoDeConexion" := Flag(u.online)], "Ultima Conexion", Text(u.lastSeen));
    var d := c["FotoDePerfil" := Text(u.photo)]["Localizacion" := Text(u.place)];
    FlatWith(c, "FotoDePerfil", Text(u.photo));
    FlatWith(c["FotoDePerfil" := Text(u.photo)], "Localizacion", Text(u.place));
    FlatWith(d, "Token", Text(u.token));
    FlatWith(d["Token" := Text(u.token)], "Password", Text(u.password));
    assert d["Token" := Text(u.token)]["Password" := Text(u.password)] == UserJson(u);
  }

  lemma UserOfJson(u: User)
    ensures UserOf(UserJson(u)) == Done(u)
  {
    var o := UserJson(u);
    assert GetText(o, "Id") == Done(u.id) && GetText(o, "Nombre") == Done(u.name);
    assert GetText(o, "Telefono") == Done(u.phone);
    assert GetText(o, "EstadoDeConexion") == Done(if u.online then "true" else "false");
    assert GetText(o, "Ultima Conexion") == Done(u.lastSeen) && GetText(o, "FotoDePerfil") == Done(u.photo);
    assert GetText(o, "Localizacion") == Done(u.place) && GetText(o, "Token") == Done(u.token);
    assert GetText(o, "Password") == Done(u.password);
  }

  /** Reading a written user gives the same user back, the online flag included. */
  lemma UserRoundTrip(p: Platform, u: User)
    requires p.Lawful()
    ensures ReadUser(p, WriteUser(p, u)) == Done(u)
  {
    hide Flat, UserJson, UserOf, Mentions, WellWritten, IsDigest;
    UserIsFlat(u);
    UserOfJson(u);
  }

  lemma MessageIsFlat(m: Message)
    ensures Flat(MessageJson(m))
  {
  }

  lemma MessageOfJson(m: Message)
    ensures MessageOf(MessageJson(m)) == Done(m)
  {
  }

  lemma MessageRoundTrip(p: Platform, m: Message)
    requires p.Lawful()
    ensures ReadMessage(p, WriteMessage(p, m)) == Done(m)
  {
    hide Flat, MessageJson, MessageOf, Mentions, WellWritten, IsDigest;
    MessageIsFlat(m);
    MessageOfJson(m);
  }

  /** No member of the message holds the list separator. */
  predicate Clean(m: Message) {
    SEPARATOR !in m.id && SEPARATOR !in m.body && SEPARATOR !in m.sender && SEPARATOR !in m.date
  }

  lemma MessageMentions(m: Message)
    ensures Mentions(MessageJson(m), SEPARATOR) <==> !Clean(m)
  {
    var o := MessageJson(m);
    assert forall k :: k in o ==> k == "Id" || k == "Cuerpo" || k == "IdUsuarioEmisor" || k == "Fecha";
    assert "Id" in o && o["Id"] == Text(m.id);
    assert "Cuerpo" in o && o["Cuerpo"] == Text(m.body);
    assert "IdUsuarioEmisor" in o && o["IdUsuarioEmisor"] == Text(m.sender);
    assert "Fecha" in o && o["Fecha"] == Text(m.date);
  }

  /** A written message can be listed exactly when its members are clean. */
  lemma WrittenMessage(p: Platform, m: Message)
    requires p.Lawful()
    ensures WellWritten(WriteMessage(p, m))
    ensures SEPARATOR in WriteMessage(p, m) <==> !Clean(m)
  {
    hide Flat, MessageJson, Mentions, WellWritten, IsDigest, Clean;
    MessageIsFlat(m);
    MessageMentions(m);
  }

  lemma DigestIsPlain(s: string)
    requires IsDigest(s)
    ensures s != "" && SEPARATOR !in s && '-' !in s && s != NO_USER_ID
  {
    assert |NO_USER_ID| == 14;
  }
}
