/**
 * The admin IP gate of core/middleware.py (`AdminIPRestrictionMiddleware`).
 *
 * The middleware object is built once from two settings and never changes
 * afterwards, so it is a value here: `New` is the constructor and `Call`
 * is `__call__`. The wrapped `get_response` handler is a function value.
 */
module AdminMiddleware {
  import opened Wrappers
  import opened Text

  /** The parts of an HTTP request the gate reads: its path and its META map. */
  datatype Request = Request(path: string, meta: map<string, string>)

  /** An HTTP response, reduced to its status code and body. */
  datatype Response = Response(status: nat, body: string)

  const ForwardedForKey: string := "HTTP_X_FORWARDED_FOR"
  const RemoteAddrKey: string := "REMOTE_ADDR"
  const DefaultAdminUrl: string := "/admin/"
  const ForbiddenBody: string := "Access to admin is restricted"

  /** `HttpResponseForbidden('Access to admin is restricted')`. */
  const Forbidden: Response := Response(403, ForbiddenBody)

  /** The middleware's state: the handler, the normalised prefix and the allow-set. */
  datatype AdminIPRestriction = AdminIPRestriction(
    getResponse: Request -> Response,
    adminUrl: string,
    allowed: set<string>)

  /** What the gate decides before any handler runs. */
  datatype Decision = Continue | Reject

  predicate IsSlash(c: char) { c == '/' }

  /**
   * `'/' + ADMIN_URL.strip('/') + '/'` when the setting is a non-empty
   * string, `'/admin/'` when it is `None` or empty.
   */
  function NormalizeAdminUrl(setting: Option<string>): (prefix: string)
    ensures |prefix| >= 2 && prefix[0] == '/' && prefix[|prefix| - 1] == '/'
    ensures setting == None || setting == Some("") ==> prefix == DefaultAdminUrl
    ensures setting.Some? && setting.value != "" ==>
      prefix[1..|prefix| - 1] == Strip(setting.value, IsSlash)
    ensures var inner := prefix[1..|prefix| - 1];
      inner == [] || (inner[0] != '/' && inner[|inner| - 1] != '/')
  {
    if setting.Some? && setting.value != "" then
      var inner := Strip(setting.value, IsSlash);
      var prefix := "/" + inner + "/";
      assert prefix[1..|prefix| - 1] == inner;
      prefix
    else
      DefaultAdminUrl
  }

  /** `__init__`: normalise the prefix and collect `ADMIN_ALLOWED_IPS or []` into a set. */
  function New(getResponse: Request -> Response, adminUrlSetting: Option<string>,
               allowedSetting: Option<seq<string>>): (mw: AdminIPRestriction)
    ensures mw.getResponse == getResponse
    ensures mw.adminUrl == NormalizeAdminUrl(adminUrlSetting)
    ensures forall ip :: ip in mw.allowed <==> allowedSetting.Some? && ip in allowedSetting.value
  {
    var ips := if allowedSetting.Some? then allowedSetting.value else [];
    AdminIPRestriction(getResponse, NormalizeAdminUrl(adminUrlSetting), set ip | ip in ips)
  }

  /** `request.META.get(key)`. */
  function MetaGet(req: Request, key: string): Option<string>
  {
    if key in req.meta then Some(req.meta[key]) else None
  }

  /** Whether the request carries a truthy (present and non-empty) `X-Forwarded-For`. */
  predicate HasForwardedFor(req: Request)
  {
    MetaGet(req, ForwardedForKey).Some? && MetaGet(req, ForwardedForKey).value != ""
  }

  /**
   * The client address: `xff.split(',')[0].strip()` when `X-Forwarded-For`
   * is truthy, else `REMOTE_ADDR`, which may be missing (`None`).
   */
  function ClientIp(req: Request): (ip: Option<string>)
    ensures HasForwardedFor(req) ==>
      var xff := req.meta[ForwardedForKey];
      && ip.Some?
      && ip.value == PyStrip(xff[..IndexOf(xff, ',')])
      && ',' !in ip.value
    ensures !HasForwardedFor(req) ==> ip == MetaGet(req, RemoteAddrKey)
  {
    if HasForwardedFor(req) then
      var xff := req.meta[ForwardedForKey];
      var first := xff[..IndexOf(xff, ',')];
      var ip := PyStrip(first);
      IndexOfFirst(xff, ',');
      assert forall k :: 0 <= k < |first| ==> first[k] != ',';
      Some(ip)
    else
      MetaGet(req, RemoteAddrKey)
  }

  /** The client address is in the allow-set (a missing address never is). */
  predicate Admits(mw: AdminIPRestriction, ip: Option<string>)
  {
    ip.Some? && ip.value in mw.allowed
  }

  /** The gate's decision; it never looks at the handler. */
  function Decide(mw: AdminIPRestriction, req: Request): (d: Decision)
    ensures d == Reject <==> mw.adminUrl <= req.path && !Admits(mw, ClientIp(req))
  {
    if mw.adminUrl <= req.path && !Admits(mw, ClientIp(req)) then Reject else Continue
  }

  /** `__call__`: a 403 on rejection, otherwise whatever the handler returns. */
  function Call(mw: AdminIPRestriction, req: Request): (resp: Response)
    ensures Decide(mw, req) == Continue ==> resp == mw.getResponse(req)
    ensures Decide(mw, req) == Reject ==> resp == Forbidden
  {
    match Decide(mw, req)
    case Reject => Forbidden
    case Continue => mw.getResponse(req)
  }

  // ---------------------------------------------------------------------
  // Properties of the prefix normalisation
  // ---------------------------------------------------------------------

  /** A prefix of the form `/t/`, with `t` neither starting nor ending in `/`, is kept as it is. */
  lemma NormalizeKeepsCleanPrefix(t: string)
    requires t == [] || (t[0] != '/' && t[|t| - 1] != '/')
    ensures NormalizeAdminUrl(Some("/" + t + "/")) == "/" + t + "/"
  {
    var s := "/" + t + "/";
    if t == [] {
      assert s == "//" + [];
      DropWhileSkips("//", [], IsSlash);
      assert Strip(s, IsSlash) == DropWhileEnd([], IsSlash);
    } else {
      assert s == "/" + (t + "/");
      DropWhileSkips("/", t + "/", IsSlash);
      DropWhileEndSkips(t, "/", IsSlash);
      assert Strip(s, IsSlash) == t;
    }
  }

  /** Normalising an already normalised prefix changes nothing. */
  lemma NormalizeIdempotent(setting: Option<string>)
    ensures NormalizeAdminUrl(Some(NormalizeAdminUrl(setting))) == NormalizeAdminUrl(setting)
  {
    var p := NormalizeAdminUrl(setting);
    var t := p[1..|p| - 1];
    assert p == "/" + t + "/";
    NormalizeKeepsCleanPrefix(t);
  }

  // ---------------------------------------------------------------------
  // Properties of the request decision
  // ---------------------------------------------------------------------

  /** Outside the admin prefix the handler's response is returned, whatever the headers say. */
  lemma OutsideAdminPassesThrough(mw: AdminIPRestriction, req: Request)
    requires !(mw.adminUrl <= req.path)
    ensures Call(mw, req) == mw.getResponse(req)
    ensures forall meta :: Call(mw, req.(meta := meta)) == mw.getResponse(req.(meta := meta))
  {
  }

  /** A truthy `X-Forwarded-For` makes `REMOTE_ADDR` irrelevant. */
  lemma ForwardedForOverridesRemoteAddr(mw: AdminIPRestriction, req: Request, addr: string)
    requires HasForwardedFor(req)
    ensures ClientIp(req.(meta := req.meta[RemoteAddrKey := addr])) == ClientIp(req)
    ensures Decide(mw, req.(meta := req.meta[RemoteAddrKey := addr])) == Decide(mw, req)
  {
    var req' := req.(meta := req.meta[RemoteAddrKey := addr]);
    assert req'.meta[ForwardedForKey] == req.meta[ForwardedForKey];
    assert HasForwardedFor(req');
  }

  /**
   * An allow-listed `REMOTE_ADDR` does not admit an admin request whose
   * forwarded first token is not allowed.
   */
  lemma AllowedRemoteAddrDoesNotAdmitForwarded(mw: AdminIPRestriction, req: Request)
    requires mw.adminUrl <= req.path && HasForwardedFor(req)
    requires RemoteAddrKey in req.meta && req.meta[RemoteAddrKey] in mw.allowed
    requires PyStrip(Split(req.meta[ForwardedForKey], ',')[0]) !in mw.allowed
    ensures Call(mw, req) == Forbidden
  {
  }

  /** Without a forwarded header and without `REMOTE_ADDR`, an admin request is refused. */
  lemma MissingAddressIsRejected(mw: AdminIPRestriction, req: Request)
    requires mw.adminUrl <= req.path && !HasForwardedFor(req) && RemoteAddrKey !in req.meta
    ensures Call(mw, req) == Forbidden
  {
  }

  /**
   * A rejected request gets the fixed 403 and the handler is never consulted:
   * swapping the handler for any other gives the same response.
   */
  lemma RejectedIgnoresHandler(mw: AdminIPRestriction, req: Request, other: Request -> Response)
    requires mw.adminUrl <= req.path && !Admits(mw, ClientIp(req))
    ensures Call(mw, req) == Response(403, "Access to admin is restricted")
    ensures Call(mw.(getResponse := other), req) == Call(mw, req)
  {
  }

  /** A permitted request gets the handler's response unchanged. */
  lemma AdmittedReachesHandler(mw: AdminIPRestriction, req: Request)
    requires Admits(mw, ClientIp(req))
    ensures Call(mw, req) == mw.getResponse(req)
  {
  }

  /** Fails closed: with no allowed addresses configured every admin request is refused. */
  lemma EmptyAllowListRejectsAdmin(getResponse: Request -> Response, adminUrlSetting: Option<string>,
                                   allowedSetting: Option<seq<string>>, req: Request)
    requires allowedSetting == None || allowedSetting == Some([])
    requires NormalizeAdminUrl(adminUrlSetting) <= req.path
    ensures Call(New(getResponse, adminUrlSetting, allowedSetting), req) == Forbidden
  {
    var mw := New(getResponse, adminUrlSetting, allowedSetting);
    assert mw.allowed == {};
  }

  /** A setting with no slash at either end is wrapped in slashes. */
  lemma NormalizeWrapsCleanSetting(t: string)
    requires t != [] && t[0] != '/' && t[|t| - 1] != '/'
    ensures NormalizeAdminUrl(Some(t)) == "/" + t + "/"
  {
    StripNoop(t, IsSlash);
  }

  /**
   * With `ADMIN_URL = t` (no slash at either end) and `ADMIN_ALLOWED_IPS = [a]`,
   * a request below `/t/` forwarded for `a` reaches the handler and one
   * forwarded for any other clean address `b` gets the 403.
   */
  lemma SingleAllowedAddressGate(getResponse: Request -> Response, t: string, a: string, b: string, rest: string)
    requires t != [] && t[0] != '/' && t[|t| - 1] != '/'
    requires a != [] && ',' !in a && !PyIsSpace(a[0]) && !PyIsSpace(a[|a| - 1])
    requires b != [] && ',' !in b && !PyIsSpace(b[0]) && !PyIsSpace(b[|b| - 1])
    requires a != b
    ensures var mw := New(getResponse, Some(t), Some([a]));
      var path := "/" + t + "/" + rest;
      && mw.adminUrl == "/" + t + "/"
      && Call(mw, Request(path, map[ForwardedForKey := b])) == Forbidden
      && Call(mw, Request(path, map[ForwardedForKey := a])) == getResponse(Request(path, map[ForwardedForKey := a]))
  {
    var mw := New(getResponse, Some(t), Some([a]));
    NormalizeWrapsCleanSetting(t);
    var path := "/" + t + "/" + rest;
    assert mw.adminUrl <= path;
    assert a in mw.allowed && b !in mw.allowed;
    SingleForwardedAddress(path, a);
    SingleForwardedAddress(path, b);
  }

  /**
   * `ADMIN_URL = "control-panel"`, `ADMIN_ALLOWED_IPS = ["9.9.9.9"]`: a request
   * to `/control-panel/x` forwarded for `1.1.1.1` gets the 403, one forwarded
   * for `9.9.9.9` reaches the handler.
   */
  lemma ControlPanelExample(getResponse: Request -> Response)
    ensures var mw := New(getResponse, Some("control-panel"), Some(["9.9.9.9"]));
      var path := "/" + "control-panel" + "/" + "x";
      && mw.adminUrl == "/control-panel/"
      && Call(mw, Request(path, map[ForwardedForKey := "1.1.1.1"])) == Forbidden
      && Call(mw, Request(path, map[ForwardedForKey := "9.9.9.9"]))
         == getResponse(Request(path, map[ForwardedForKey := "9.9.9.9"]))
  {
    assert "/" + "control-panel" + "/" == "/control-panel/";
    assert "9.9.9.9" != "1.1.1.1" by { assert "9.9.9.9"[0] != "1.1.1.1"[0]; }
    SingleAllowedAddressGate(getResponse, "control-panel", "9.9.9.9", "1.1.1.1", "x");
  }

  /** `X-Forwarded-For: "1.2.3.4, 5.6.7.8"` yields the client address `"1.2.3.4"`. */
  lemma FirstForwardedAddressExample(path: string)
    ensures ClientIp(Request(path, map[ForwardedForKey := "1.2.3.4, 5.6.7.8"])) == Some("1.2.3.4")
  {
    assert "1.2.3.4" + "," + " 5.6.7.8" == "1.2.3.4, 5.6.7.8";
    ForwardedListFirst(path, "1.2.3.4", " 5.6.7.8");
  }

  /** With `X-Forwarded-For: a,rest` and a clean `a`, the client address is `a`. */
  lemma ForwardedListFirst(path: string, a: string, rest: string)
    requires a != [] && ',' !in a
    requires !PyIsSpace(a[0]) && !PyIsSpace(a[|a| - 1])
    ensures ClientIp(Request(path, map[ForwardedForKey := a + "," + rest])) == Some(a)
  {
    var xff := a + "," + rest;
    var req := Request(path, map[ForwardedForKey := xff]);
    assert MetaGet(req, ForwardedForKey) == Some(xff);
    IndexOfIs(xff, ',', |a|);
    assert xff[..|a|] == a;
    StripNoop(a, PyIsSpace);
  }

  /** A forwarded header holding one clean address yields that address. */
  lemma SingleForwardedAddress(path: string, addr: string)
    requires addr != [] && ',' !in addr
    requires !PyIsSpace(addr[0]) && !PyIsSpace(addr[|addr| - 1])
    ensures ClientIp(Request(path, map[ForwardedForKey := addr])) == Some(addr)
  {
    IndexOfIs(addr, ',', |addr|);
    assert addr[..|addr|] == addr;
    StripNoop(addr, PyIsSpace);
  }
}
