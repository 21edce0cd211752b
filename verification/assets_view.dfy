/**
 * What the panel shows once the login message arrives: the outcome of its
 * `GET /api/assets` request turned into either a single message or one
 * `📁 <name>` label per asset, in order.
 */
module AssetsView {
  import opened Wrappers
  import opened Json
  import Server

  const FolderPrefix := "\U{1F4C1} "
  const UnnamedAsset := "(Unnamed asset)"
  const NoAssetsMessage := "No assets found in your project."
  const LoadFailedMessage := "\U{274C} Failed to load assets."

  /** The assets container: a text message, or one label per entry. */
  datatype Panel = Message(text: string) | Entries(labels: seq<string>)

  /** The decimal digits of `n`, with no leading zero. */
  function Digits(n: nat): (r: string)
    ensures |r| >= 1
    ensures forall i :: 0 <= i < |r| ==> '0' <= r[i] <= '9'
    ensures r[0] == '0' ==> n == 0
    decreases n
  {
    var d := ['0' + (n % 10) as char];
    if n < 10 then d else Digits(n / 10) + d
  }

  /** The number a string of decimal digits denotes. */
  function DecimalValue(s: string): nat
    requires forall i :: 0 <= i < |s| ==> '0' <= s[i] <= '9'
    decreases |s|
  {
    if s == [] then 0 else DecimalValue(s[..|s| - 1]) * 10 + (s[|s| - 1] as int - '0' as int)
  }

  /** The decimal rendering of a number reads back as that number. */
  lemma {:induction false} DigitsRoundTrip(n: nat)
    ensures DecimalValue(Digits(n)) == n
    decreases n
  {
    if n >= 10 {
      DigitsRoundTrip(n / 10);
      var r := Digits(n);
      assert r[..|r| - 1] == Digits(n / 10);
    }
  }

  /** `String(value)` for a JSON value (numbers are integers here). */
  function Stringify(value: Json): string
    decreases value, 1
  {
    match value
    case JNull => "null"
    case JBool(b) => if b then "true" else "false"
    case JNumber(n) => if n < 0 then "-" + Digits(-n) else Digits(n)
    case JString(s) => s
    case JArray(items) => JoinElements(value, items)
    case JObject(_) => "[object Object]"
  }

  /** `items.join(",")` as `Array.prototype.toString` does it: `null` elements
      become the empty string. */
  function JoinElements(whole: Json, items: seq<Json>): string
    requires forall i :: 0 <= i < |items| ==> items[i] < whole
    decreases whole, 0, |items|
  {
    if items == [] then ""
    else
      var head := if items[0].JNull? then "" else Stringify(items[0]);
      if |items| == 1 then head else head + "," + JoinElements(whole, items[1..])
  }

  /** Member `i` is the `name` member that `JSON.parse` keeps. */
  ghost predicate IsNameMember(members: seq<(string, Json)>, i: nat) {
    && i < |members|
    && members[i].0 == "name"
    && forall j :: i < j < |members| ==> members[j].0 != "name"
  }

  /** `item.name` reads the kept `name` member of an object. */
  lemma NameRead(members: seq<(string, Json)>)
    ensures forall i: nat :: IsNameMember(members, i) ==> GetProperty(JObject(members), "name") == Value(members[i].1)
  {
    forall i: nat | IsNameMember(members, i)
      ensures GetProperty(JObject(members), "name") == Value(members[i].1)
    {
      LastMemberAt(members, "name", i);
    }
  }

  /** `item.name || "(Unnamed asset)"` for an item that is not `null`. */
  function DisplayName(item: Json): (r: string)
    requires !item.JNull?
    ensures !item.JObject? ==> r == UnnamedAsset
    ensures item.JObject? && (forall i :: 0 <= i < |item.members| ==> item.members[i].0 != "name") ==>
      r == UnnamedAsset
    ensures item.JObject? ==> forall i: nat :: IsNameMember(item.members, i) ==>
      r == if Truthy(item.members[i].1) then Stringify(item.members[i].1) else UnnamedAsset
  {
    if item.JObject? then NameRead(item.members); DisplayOf(GetProperty(item, "name"))
    else DisplayOf(GetProperty(item, "name"))
  }

  /** The `||` with the placeholder, on what reading `name` produced. */
  function DisplayOf(name: PropertyRead): string {
    if ReadTruthy(name) then Stringify(name.v) else UnnamedAsset
  }

  /** The label of one asset, or `None` when reading `item.name` throws. */
  function Label(item: Json): Option<string> {
    if item.JNull? then None else Some(FolderPrefix + DisplayName(item))
  }

  /** The labels of `items` in order, or `None` when one of them throws. */
  function Labels(items: seq<Json>): (r: Option<seq<string>>)
    ensures r.None? <==> exists i :: 0 <= i < |items| && items[i].JNull?
    ensures r.Some? ==>
      && |r.value| == |items|
      && forall i :: 0 <= i < |items| ==> Label(items[i]) == Some(r.value[i])
    decreases |items|
  {
    if items == [] then Some([])
    else
      match Label(items[0])
      case None => None
      case Some(head) =>
        (match Labels(items[1..])
         case None =>
           assert forall i :: 0 < i < |items| ==> items[i] == items[1..][i - 1];
           None
         case Some(rest) => Some([head] + rest))
  }

  /** The panel for a successfully parsed listing body: `assets.length` falsy
      shows the empty-list message; otherwise `assets.forEach` adds one label
      per item, and anything that throws (a `null` body, a `null` item, a body
      without a callable `forEach`) leaves the failure message. */
  function RenderAssets(assets: Json): (p: Panel)
    ensures assets.JArray? ==>
      (p == Message(NoAssetsMessage) <==> assets.items == [])
    ensures assets.JArray? && assets.items != [] && (forall i :: 0 <= i < |assets.items| ==> !assets.items[i].JNull?) ==>
      && p.Entries?
      && |p.labels| == |assets.items|
      && forall i :: 0 <= i < |assets.items| ==> p.labels[i] == FolderPrefix + DisplayName(assets.items[i])
    ensures p.Entries? ==> assets.JArray?
  {
    match assets
    case JNull => Message(LoadFailedMessage)
    case JArray(items) =>
      if items == [] then Message(NoAssetsMessage)
      else
        (match Labels(items)
         case None => Message(LoadFailedMessage)
         case Some(labels) => Entries(labels))
    case JString(s) => if s == "" then Message(NoAssetsMessage) else Message(LoadFailedMessage)
    case JObject(_) =>
      if ReadTruthy(GetProperty(assets, "length")) then Message(LoadFailedMessage) else Message(NoAssetsMessage)
    case _ => Message(NoAssetsMessage)
  }

  /** How the panel's request ended: a response with its status and its body
      (`None` when `res.json()` would throw), or a thrown `fetch`. */
  datatype AssetsFetch = Responded(status: int, body: Option<Json>) | FetchThrew

  /** The panel after the login message: a status outside 200-299 is thrown as
      an error, as is a body that is not JSON. */
  function AfterLogin(fetch: AssetsFetch): Panel {
    match fetch
    case FetchThrew => Message(LoadFailedMessage)
    case Responded(status, body) =>
      if !(200 <= status < 300) then Message(LoadFailedMessage)
      else
        match body
        case None => Message(LoadFailedMessage)
        case Some(assets) => RenderAssets(assets)
  }

  /** The label of an object whose kept `name` member is a string is the folder
      prefix followed by that name, or by the placeholder when it is empty; the
      name is read back by dropping the prefix. */
  lemma LabelRecoversName(members: seq<(string, Json)>, i: nat, name: string)
    requires IsNameMember(members, i) && members[i].1 == JString(name)
    ensures var r := Label(JObject(members));
      && r.Some?
      && r.value[..|FolderPrefix|] == FolderPrefix
      && r.value[|FolderPrefix|..] == (if name == "" then UnnamedAsset else name)
  {
    assert DisplayName(JObject(members)) == (if name == "" then UnnamedAsset else name);
  }

  /** A listing of named assets shows their names in order. */
  lemma NamedAssetsListed(names: seq<string>)
    requires names != []
    requires forall i :: 0 <= i < |names| ==> names[i] != ""
    ensures var items := seq(|names|, i requires 0 <= i < |names| => JObject([("name", JString(names[i]))]));
      RenderAssets(JArray(items)) == Entries(seq(|names|, i requires 0 <= i < |names| => FolderPrefix + names[i]))
  {
    var items := seq(|names|, i requires 0 <= i < |names| => JObject([("name", JString(names[i]))]));
    forall i | 0 <= i < |items|
      ensures DisplayName(items[i]) == names[i]
    {
      assert GetProperty(items[i], "name") == Value(JString(names[i]));
    }
  }

  /** The panel's view of a reply from the asset listing: its status, and a body
      only when the reply is JSON (the plain-text errors are not). */
  function FetchOfReply(reply: Server.Reply): AssetsFetch {
    Responded(Server.StatusOf(reply), if reply.JsonReply? then Some(reply.body) else None)
  }

  /** End to end: a session without a token shows the failure message, and a
      logged-in session shows the upstream listing rendered, whatever status
      the upstream answered with. */
  lemma PanelAfterListing(s: Server.SessionRecord, env: Server.Env, status: int, body: Json)
    ensures var reply := Server.ListAssetsStep(s, env, Server.Answered(status, body)).reply;
      AfterLogin(FetchOfReply(reply)) ==
        if ReadTruthy(Server.SessionAccessToken(s)) then RenderAssets(body) else Message(LoadFailedMessage)
  {
  }
}
