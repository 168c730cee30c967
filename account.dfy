/**
 * A Steam account (`Account`, app/core/manager_class/account_class.py): its
 * credentials, its HTTP session with the cookies the login helpers hand
 * over, the 30-second liveness cache, the memoised web token and wallet
 * information, and saving to / deleting from the accounts table.
 *
 * The clock, the HTTP responses and `json.loads` are parameters; the
 * accounts table is an abstract map from login to saved data.
 */
module SteamAccount {
  import opened Wrappers
  import opened Text
  import EventBus

  /** An attribute value of a `Set-Cookie` line: its text, or the `True` a valueless attribute gets. */
  datatype AttrValue = Str(s: string) | Flag

  /** The cookie `requests.cookies.create_cookie` is asked to build. */
  datatype Cookie = Cookie(name: string, value: string, domain: AttrValue, path: AttrValue)

  /** A `requests.Session`; only its cookie jar is modelled. */
  class Session {
    /** The cookies set on the jar, in order. */
    var cookies: seq<Cookie>

    constructor ()
      ensures cookies == []
    {
      cookies := [];
    }

    /** The session `pickle.loads` rebuilds from a stored record: a new jar holding the stored cookies. */
    constructor Unpickled(jar: seq<Cookie>)
      ensures cookies == jar
    {
      cookies := jar;
    }

    /** `cookies.set_cookie(c)`. */
    method SetCookie(c: Cookie)
      modifies this
      ensures cookies == old(cookies) + [c]
    {
      cookies := cookies + [c];
    }
  }

  /** An HTTP response: `ok` and the body text. */
  datatype Response = Response(ok: bool, text: string)

  /** The JSON values the wallet object can hold, as far as the client looks at them. */
  datatype Json = Number(n: int) | Text(s: string) | Other

  /** How long a positive liveness check is trusted, in seconds. */
  const CacheSeconds: int := 30

  /** The liveness test on a fetched home page: ok, and the lower-cased name occurs in the lower-cased body. */
  predicate AliveIn(r: Response, accountName: Option<string>)
    requires r.ok ==> accountName.Some?
  {
    r.ok && Contains(Lower(r.text), Lower(accountName.value))
  }

  // ----- the `loyalty_webapi_token\s*=\s*"([^"]+)"` search -----

  const TokenKey: string := "loyalty_webapi_token"

  /** The first index at or after `i` that is not whitespace. */
  function SkipSpaces(s: string, i: nat): (j: nat)
    requires i <= |s|
    ensures i <= j <= |s| && (j == |s| || !IsSpace(s[j]))
    ensures forall k :: i <= k < j ==> IsSpace(s[k])
    decreases |s| - i
  {
    if i < |s| && IsSpace(s[i]) then SkipSpaces(s, i + 1) else i
  }

  /** The first index at or after `i` holding a double quote, or the end. */
  function QuoteAt(s: string, i: nat): (j: nat)
    requires i <= |s|
    ensures i <= j <= |s| && (j == |s| || s[j] == '"')
    ensures forall k :: i <= k < j ==> s[k] != '"'
    decreases |s| - i
  {
    if i < |s| && s[i] != '"' then QuoteAt(s, i + 1) else i
  }

  /** The captured token when the pattern matches at `i`. */
  function TokenAt(s: string, i: nat): (r: Option<string>)
    requires i <= |s|
    ensures r.Some? ==> |r.value| > 0 && '"' !in r.value
  {
    if !OccursAt(s, TokenKey, i) then None
    else
      var eq := SkipSpaces(s, i + |TokenKey|);
      if eq == |s| || s[eq] != '=' then None
      else
        var open := SkipSpaces(s, eq + 1);
        if open == |s| || s[open] != '"' then None
        else
          var close := QuoteAt(s, open + 1);
          if close == |s| || close == open + 1 then None
          else Some(s[open + 1..close])
  }

  /** `re.search`: the match at the leftmost position where there is one. */
  function TokenSearch(s: string, i: nat): (r: Option<string>)
    requires i <= |s|
    ensures r.Some? ==> |r.value| > 0 && '"' !in r.value
    decreases |s| - i
  {
    if TokenAt(s, i).Some? then TokenAt(s, i)
    else if i == |s| then None
    else TokenSearch(s, i + 1)
  }

  /** A page that begins with the token assignment yields the quoted token. */
  lemma TokenOfPage(gap1: string, gap2: string, token: string, rest: string)
    requires forall k :: 0 <= k < |gap1| ==> IsSpace(gap1[k])
    requires forall k :: 0 <= k < |gap2| ==> IsSpace(gap2[k])
    requires |token| > 0 && '"' !in token
    ensures TokenSearch(TokenKey + gap1 + "=" + gap2 + "\"" + token + "\"" + rest, 0) == Some(token)
  {
    var s := TokenKey + gap1 + "=" + gap2 + "\"" + token + "\"" + rest;
    var eq := |TokenKey| + |gap1|;
    var open := eq + 1 + |gap2|;
    var close := open + 1 + |token|;
    PageKey(gap1, gap2, token, rest);
    PageEquals(gap1, gap2, token, rest);
    PageOpen(gap1, gap2, token, rest);
    PageClose(gap1, gap2, token, rest);
    TokenAtParts(s, eq, open, close);
  }

  /** The pattern's steps, found in order, capture what lies between the quotes. */
  lemma TokenAtParts(s: string, eq: nat, open: nat, close: nat)
    requires OccursAt(s, TokenKey, 0)
    requires |TokenKey| <= eq < |s| && SkipSpaces(s, |TokenKey|) == eq && s[eq] == '='
    requires eq < open < |s| && SkipSpaces(s, eq + 1) == open && s[open] == '"'
    requires open + 1 < close < |s| && QuoteAt(s, open + 1) == close
    ensures TokenSearch(s, 0) == Some(s[open + 1..close])
  {
    assert TokenAt(s, 0) == Some(s[open + 1..close]);
  }

  lemma PageKey(gap1: string, gap2: string, token: string, rest: string)
    ensures OccursAt(TokenKey + gap1 + "=" + gap2 + "\"" + token + "\"" + rest, TokenKey, 0)
  {
    var s := TokenKey + gap1 + "=" + gap2 + "\"" + token + "\"" + rest;
    assert s[..|TokenKey|] == TokenKey;
  }

  lemma PageEquals(gap1: string, gap2: string, token: string, rest: string)
    requires forall k :: 0 <= k < |gap1| ==> IsSpace(gap1[k])
    ensures var s := TokenKey + gap1 + "=" + gap2 + "\"" + token + "\"" + rest;
      var eq := |TokenKey| + |gap1|;
      eq < |s| && SkipSpaces(s, |TokenKey|) == eq && s[eq] == '='
  {
    var s := TokenKey + gap1 + "=" + gap2 + "\"" + token + "\"" + rest;
    var eq := |TokenKey| + |gap1|;
    assert s[eq] == '=';
    forall k | |TokenKey| <= k < eq
      ensures IsSpace(s[k])
    {
      assert s[k] == gap1[k - |TokenKey|];
    }
    SpacesRun(s, |TokenKey|, eq);
  }

  lemma PageOpen(gap1: string, gap2: string, token: string, rest: string)
    requires forall k :: 0 <= k < |gap2| ==> IsSpace(gap2[k])
    ensures var s := TokenKey + gap1 + "=" + gap2 + "\"" + token + "\"" + rest;
      var open := |TokenKey| + |gap1| + 1 + |gap2|;
      open < |s| && SkipSpaces(s, |TokenKey| + |gap1| + 1) == open && s[open] == '"'
  {
    var s := TokenKey + gap1 + "=" + gap2 + "\"" + token + "\"" + rest;
    var eq := |TokenKey| + |gap1|;
    var open := eq + 1 + |gap2|;
    assert s[open] == '"';
    forall k | eq + 1 <= k < open
      ensures IsSpace(s[k])
    {
      assert s[k] == gap2[k - eq - 1];
    }
    SpacesRun(s, eq + 1, open);
  }

  lemma PageClose(gap1: string, gap2: string, token: string, rest: string)
    requires '"' !in token
    ensures var s := TokenKey + gap1 + "=" + gap2 + "\"" + token + "\"" + rest;
      var open := |TokenKey| + |gap1| + 1 + |gap2|;
      var close := open + 1 + |token|;
      close < |s| && QuoteAt(s, open + 1) == close && s[open + 1..close] == token
  {
    var s := TokenKey + gap1 + "=" + gap2 + "\"" + token + "\"" + rest;
    var open := |TokenKey| + |gap1| + 1 + |gap2|;
    var close := open + 1 + |token|;
    assert s[close] == '"';
    forall k | open + 1 <= k < close
      ensures s[k] != '"'
    {
      assert s[k] == token[k - open - 1];
    }
    QuoteRun(s, open + 1, close);
    assert s[open + 1..close] == token;
  }


  lemma {:induction false} SpacesRun(s: string, i: nat, j: nat)
    requires i <= j < |s| && !IsSpace(s[j])
    requires forall k :: i <= k < j ==> IsSpace(s[k])
    ensures SkipSpaces(s, i) == j
    decreases j - i
  {
    if i < j {
      SpacesRun(s, i + 1, j);
    }
  }

  lemma {:induction false} QuoteRun(s: string, i: nat, j: nat)
    requires i <= j < |s| && s[j] == '"'
    requires forall k :: i <= k < j ==> s[k] != '"'
    ensures QuoteAt(s, i) == j
    decreases j - i
  {
    if i < j {
      QuoteRun(s, i + 1, j);
    }
  }

  // ----- the `var g_rgWalletInfo = ({.*?});` search -----

  const WalletKey: string := "var g_rgWalletInfo = {"

  /** Where the lazy `.*?` stops: the first `};` at or after `j` before any newline. */
  function CloseAt(s: string, j: nat): (r: Option<nat>)
    requires j <= |s|
    ensures r.Some? ==> j <= r.value && OccursAt(s, "};", r.value)
    decreases |s| - j
  {
    if OccursAt(s, "};", j) then Some(j)
    else if j == |s| || s[j] == '\n' then None
    else CloseAt(s, j + 1)
  }

  /** The captured object text, braces included, when the pattern matches at `i`. */
  function WalletAt(s: string, i: nat): (r: Option<string>)
    requires i <= |s|
    ensures r.Some? ==> |r.value| >= 2 && r.value[0] == '{' && r.value[|r.value| - 1] == '}'
  {
    if !OccursAt(s, WalletKey, i) then None
    else match CloseAt(s, i + |WalletKey|)
      case None => None
      case Some(j) =>
        assert s[i..i + |WalletKey|][|WalletKey| - 1] == '{';
        assert s[j..j + 2][0] == '}';
        Some(s[i + |WalletKey| - 1..j + 1])
  }

  /** `re.search`: the match at the leftmost position where there is one. */
  function WalletSearch(s: string, i: nat): (r: Option<string>)
    requires i <= |s|
    ensures r.Some? ==> |r.value| >= 2 && r.value[0] == '{' && r.value[|r.value| - 1] == '}'
    decreases |s| - i
  {
    if WalletAt(s, i).Some? then WalletAt(s, i)
    else if i == |s| then None
    else WalletSearch(s, i + 1)
  }

  /** A page that begins with the wallet assignment on one line yields the object literal. */
  lemma WalletOfPage(inner: string, rest: string)
    requires '\n' !in inner && ';' !in inner
    ensures WalletSearch(WalletKey + inner + "};" + rest, 0) == Some("{" + inner + "}")
  {
    var s := WalletKey + inner + "};" + rest;
    var j := |WalletKey| + |inner|;
    assert s[..|WalletKey|] == WalletKey;
    assert s[j..j + 2] == "};";
    CloseRun(s, |WalletKey|, j);
    assert s[|WalletKey| - 1..j + 1] == "{" + inner + "}";
  }

  lemma {:induction false} CloseRun(s: string, i: nat, j: nat)
    requires i <= j && OccursAt(s, "};", j)
    requires forall k :: i <= k < j ==> s[k] != '\n' && s[k] != ';'
    ensures CloseAt(s, i) == Some(j)
    decreases j - i
  {
    if i < j {
      assert s[i..i + 2][1] == s[i + 1];
      if i + 1 < j {
        assert s[i + 1] != ';';
      } else {
        assert s[i + 1] == s[j..j + 2][0];
      }
      CloseRun(s, i + 1, j);
    }
  }

  /**
   * What `get_save_data` returns and `set_save_data` reads; a missing key is
   * `None`.  The record is pickled into the table, so the session is kept as
   * a copy of its cookie jar rather than as the live object.
   */
  datatype SaveData = SaveData(
    accountName: Option<string>,
    password: Option<string>,
    steamId: Option<string>,
    refreshToken: Option<string>,
    session: Option<seq<Cookie>>)

  /** Python truthiness of an optional string: present and non-empty. */
  predicate Truthy(s: Option<string>)
  {
    s.Some? && s.value != ""
  }

  /** The `client` column of a row: a record that decrypts, or one that no longer does (another secret key, damaged data). */
  datatype Client = Decrypted(data: SaveData) | Undecryptable

  /** The accounts table: login to saved data. */
  class AccountStore {
    var rows: map<string, Client>

    constructor ()
      ensures rows == map[]
    {
      rows := map[];
    }
  }

  class Account {
    var password: Option<string>
    var steamId: Option<string>
    var accountName: Option<string>
    var refreshToken: Option<string>
    var session: Session
    var walletCurrency: Option<Json>
    var walletCountry: Option<Json>
    /** `__access_token`. */
    var accessToken: Option<string>
    /** `__wallet_info`. */
    var walletInfo: Option<map<string, Json>>
    /** `__last_check_status`. */
    var lastCheckStatus: Option<bool>
    /** `__last_check_time` in seconds; `None` for `datetime.min`. */
    var lastCheckTime: Option<int>

    /** A blank account with a fresh session that has never been checked. */
    constructor ()
      ensures password.None? && steamId.None? && accountName.None? && refreshToken.None?
      ensures fresh(session) && session.cookies == []
      ensures walletCurrency.None? && walletCountry.None? && accessToken.None? && walletInfo.None?
      ensures lastCheckStatus.None? && lastCheckTime.None?
    {
      password := None;
      steamId := None;
      accountName := None;
      refreshToken := None;
      session := new Session();
      walletCurrency := None;
      walletCountry := None;
      accessToken := None;
      walletInfo := None;
      lastCheckStatus := None;
      lastCheckTime := None;
    }

    /** Whether a check at time `now` is answered from the cache: a positive result under 30 seconds old. */
    predicate Cached(now: int)
      reads this
    {
      lastCheckStatus == Some(true) && lastCheckTime.Some? && lastCheckTime.value + CacheSeconds > now
    }

    /** A negative result is never served from the cache, whatever the time. */
    lemma FalseNeverCached(now: int)
      requires lastCheckStatus == Some(false)
      ensures !Cached(now)
    {
    }

    /**
     * `is_alive_session(is_callback)` at time `now`, `home` being what the home
     * page request returns (`None` when it raises).  The check time is set
     * before the request, so a raising request leaves the time refreshed, the
     * last status as it was, and `raised` set: the exception reaches the
     * caller.  Reading the name of an account that has none raises in the
     * source, so a fresh check on an ok response needs one.
     */
    method IsAliveSession(isCallback: bool, now: int, home: Option<Response>, bus: EventBus.CallbackManager)
      returns (alive: bool, raised: bool)
      requires Cached(now) || home.None? || !home.value.ok || accountName.Some?
      modifies this, bus
      ensures raised <==> !old(Cached(now)) && home.None?
      ensures raised ==> !alive
      ensures old(Cached(now)) ==> alive && unchanged(this) && unchanged(bus)
      ensures !old(Cached(now)) ==> lastCheckTime == Some(now)
      ensures raised ==> lastCheckStatus == old(lastCheckStatus) && unchanged(bus)
      ensures !old(Cached(now)) && home.Some? ==>
        alive == AliveIn(home.value, old(accountName)) && lastCheckStatus == Some(alive)
      ensures !old(Cached(now)) && home.Some? ==> (bus.callbacks == old(bus.callbacks) &&
        bus.submitted == old(bus.submitted) +
          (if isCallback && !alive
           then EventBus.Triggered(bus.callbacks, EventBus.Event(EventBus.AccountSessionExpired), [EventBus.Ref(this)], map[])
           else []))
      ensures !old(Cached(now)) && alive ==> forall t :: now <= t < now + CacheSeconds ==> Cached(t)
      ensures password == old(password) && steamId == old(steamId) && accountName == old(accountName)
      ensures refreshToken == old(refreshToken) && session == old(session)
      ensures walletCurrency == old(walletCurrency) && walletCountry == old(walletCountry)
      ensures accessToken == old(accessToken) && walletInfo == old(walletInfo)
    {
      if Cached(now) {
        return true, false;
      }
      lastCheckTime := Some(now);
      if home.None? {
        return false, true;
      }
      raised := false;
      alive := AliveIn(home.value, accountName);
      lastCheckStatus := Some(alive);
      if isCallback && !alive {
        bus.Trigger(EventBus.Event(EventBus.AccountSessionExpired), [EventBus.Ref(this)], map[]);
      }
    }

    /** Whether a check at `now` against `home` finds the session alive, from the cache or afresh. */
    predicate AliveAt(now: int, home: Option<Response>)
      reads this
      requires Cached(now) || home.None? || !home.value.ok || accountName.Some?
    {
      Cached(now) || (home.Some? && AliveIn(home.value, accountName))
    }

    /**
     * `get_steam_web_token`: the memoised token when there is one; otherwise,
     * if the session is alive, the token found on the profile page `page`
     * (`None` when that request raises), with `&quot;` removed.  A raising
     * liveness request is not caught here: `raised` passes it on.
     */
    method GetSteamWebToken(now: int, home: Option<Response>, page: Option<string>, bus: EventBus.CallbackManager)
      returns (token: Option<string>, raised: bool)
      requires Cached(now) || home.None? || !home.value.ok || accountName.Some?
      modifies this, bus
      ensures Truthy(old(accessToken)) ==> token == old(accessToken) && !raised && unchanged(this) && unchanged(bus)
      ensures raised <==> !Truthy(old(accessToken)) && !old(Cached(now)) && home.None?
      ensures raised ==> token.None?
      ensures !Truthy(old(accessToken)) && token.Some? ==>
        old(AliveAt(now, home)) && page.Some? && TokenSearch(page.value, 0).Some?
        && token.value == ReplaceAll(TokenSearch(page.value, 0).value, "&quot;", "")
        && accessToken == token
      ensures !Truthy(old(accessToken)) && token.None? ==> accessToken == old(accessToken)
      ensures !Truthy(old(accessToken)) && !old(AliveAt(now, home)) ==> token.None?
      ensures (!Truthy(old(accessToken)) && page.Some? && TokenSearch(page.value, 0).Some? &&
        old(AliveAt(now, home))) ==> token.Some?
      ensures !Truthy(old(accessToken)) && old(Cached(now)) ==>
        lastCheckTime == old(lastCheckTime) && lastCheckStatus == old(lastCheckStatus) && unchanged(bus)
      ensures !Truthy(old(accessToken)) && !old(Cached(now)) ==> lastCheckTime == Some(now)
      ensures raised ==> lastCheckStatus == old(lastCheckStatus) && unchanged(bus)
      ensures !Truthy(old(accessToken)) && !old(Cached(now)) && home.Some? ==>
        var alive := AliveIn(home.value, old(accountName));
        lastCheckStatus == Some(alive) && bus.callbacks == old(bus.callbacks)
        && bus.submitted == old(bus.submitted) +
          (if alive then []
           else EventBus.Triggered(bus.callbacks, EventBus.Event(EventBus.AccountSessionExpired), [EventBus.Ref(this)], map[]))
      ensures password == old(password) && steamId == old(steamId) && refreshToken == old(refreshToken)
      ensures accountName == old(accountName) && session == old(session) && walletInfo == old(walletInfo)
      ensures walletCurrency == old(walletCurrency) && walletCountry == old(walletCountry)
    {
      if Truthy(accessToken) {
        return accessToken, false;
      }
      var alive;
      alive, raised := IsAliveSession(true, now, home, bus);
      if raised || !alive || page.None? {
        return None, raised;
      }
      match TokenSearch(page.value, 0)
      case None =>
        token := None;
      case Some(t) =>
        var cleaned := ReplaceAll(t, "&quot;", "");
        accessToken := Some(cleaned);
        token := Some(cleaned);
    }

    /**
     * `load_wallet_info`: the memoised wallet object when it is non-empty;
     * otherwise, if the session is alive and the market page `page` (`None`
     * when the request raises) is ok and holds the wallet assignment, the
     * object `parse` (`json.loads`, `None` when it raises) makes of it, from
     * which the currency and country are read.  A raising liveness request is
     * not caught here: `raised` passes it on.
     */
    method LoadWalletInfo(now: int, home: Option<Response>, page: Option<Response>,
                          parse: string -> Option<map<string, Json>>, bus: EventBus.CallbackManager)
      returns (info: Option<map<string, Json>>, raised: bool)
      requires Cached(now) || home.None? || !home.value.ok || accountName.Some?
      modifies this, bus
      ensures old(walletInfo).Some? && |old(walletInfo).value| > 0 ==>
        info == old(walletInfo) && !raised && unchanged(this) && unchanged(bus)
      ensures raised <==> !(old(walletInfo).Some? && |old(walletInfo).value| > 0) && !old(Cached(now)) && home.None?
      ensures raised ==> info.None?
      ensures !(old(walletInfo).Some? && |old(walletInfo).value| > 0) && info.Some? ==>
        old(AliveAt(now, home)) && page.Some? && page.value.ok && WalletSearch(page.value.text, 0).Some?
        && info == parse(WalletSearch(page.value.text, 0).value)
        && walletInfo == info
        && walletCurrency == (if "wallet_currency" in info.value then Some(info.value["wallet_currency"]) else None)
        && walletCountry == (if "wallet_country" in info.value then Some(info.value["wallet_country"]) else None)
      ensures !(old(walletInfo).Some? && |old(walletInfo).value| > 0) && info.None? ==>
        walletInfo == old(walletInfo) && walletCurrency == old(walletCurrency) && walletCountry == old(walletCountry)
      ensures !(old(walletInfo).Some? && |old(walletInfo).value| > 0) && !old(AliveAt(now, home)) ==> info.None?
      ensures (!(old(walletInfo).Some? && |old(walletInfo).value| > 0) && old(AliveAt(now, home)) &&
        page.Some? && page.value.ok && WalletSearch(page.value.text, 0).Some? &&
        parse(WalletSearch(page.value.text, 0).value).Some?) ==> info.Some?
      ensures !(old(walletInfo).Some? && |old(walletInfo).value| > 0) && old(Cached(now)) ==>
        lastCheckTime == old(lastCheckTime) && lastCheckStatus == old(lastCheckStatus) && unchanged(bus)
      ensures !(old(walletInfo).Some? && |old(walletInfo).value| > 0) && !old(Cached(now)) ==> lastCheckTime == Some(now)
      ensures raised ==> lastCheckStatus == old(lastCheckStatus) && unchanged(bus)
      ensures !(old(walletInfo).Some? && |old(walletInfo).value| > 0) && !old(Cached(now)) && home.Some? ==>
        var alive := AliveIn(home.value, old(accountName));
        lastCheckStatus == Some(alive) && bus.callbacks == old(bus.callbacks)
        && bus.submitted == old(bus.submitted) +
          (if alive then []
           else EventBus.Triggered(bus.callbacks, EventBus.Event(EventBus.AccountSessionExpired), [EventBus.Ref(this)], map[]))
      ensures password == old(password) && steamId == old(steamId) && refreshToken == old(refreshToken)
      ensures accountName == old(accountName) && session == old(session) && accessToken == old(accessToken)
    {
      if walletInfo.Some? && |walletInfo.value| > 0 {
        return walletInfo, false;
      }
      var alive;
      alive, raised := IsAliveSession(true, now, home, bus);
      if raised || !alive || page.None? || !page.value.ok {
        return None, raised;
      }
      match WalletSearch(page.value.text, 0)
      case None =>
        info := None;
      case Some(text) =>
        info := parse(text);
        if info.Some? {
          var d := info.value;
          walletInfo := info;
          walletCurrency := if "wallet_currency" in d then Some(d["wallet_currency"]) else None;
          walletCountry := if "wallet_country" in d then Some(d["wallet_country"]) else None;
        }
    }

    /** `get_save_data`. */
    function GetSaveData(): (d: SaveData)
      reads this, session
      ensures d.accountName == accountName && d.password == password
      ensures d.steamId == steamId && d.refreshToken == refreshToken
      ensures d.session == Some(session.cookies)
    {
      SaveData(accountName, password, steamId, refreshToken, Some(session.cookies))
    }

    /** `set_save_data`: every credential from `d`; the session only when `d` holds one. */
    method SetSaveData(d: SaveData)
      modifies this
      ensures accountName == d.accountName && password == d.password
      ensures steamId == d.steamId && refreshToken == d.refreshToken
      ensures d.session.None? ==> session == old(session)
      ensures d.session.Some? ==> fresh(session) && session.cookies == d.session.value
      ensures GetSaveData() == (if d.session.Some? then d else d.(session := Some(old(session.cookies))))
      ensures walletInfo == old(walletInfo) && accessToken == old(accessToken)
      ensures lastCheckStatus == old(lastCheckStatus) && lastCheckTime == old(lastCheckTime)
      ensures walletCurrency == old(walletCurrency) && walletCountry == old(walletCountry)
    {
      accountName := d.accountName;
      password := d.password;
      steamId := d.steamId;
      refreshToken := d.refreshToken;
      if d.session.Some? {
        session := new Session.Unpickled(d.session.value);
      }
    }

    /** `save`: stores the save data under the login; nothing happens without a login. */
    method Save(store: AccountStore)
      modifies store
      ensures !Truthy(accountName) ==> store.rows == old(store.rows)
      ensures Truthy(accountName) ==> store.rows == old(store.rows)[accountName.value := Decrypted(GetSaveData())]
    {
      if !Truthy(accountName) {
        return;
      }
      store.rows := store.rows[accountName.value := Decrypted(GetSaveData())];
    }

    /** `delete`: removes the row of the login; nothing happens without a login. */
    method Delete(store: AccountStore)
      modifies store
      ensures !Truthy(accountName) ==> store.rows == old(store.rows)
      ensures Truthy(accountName) ==> store.rows == old(store.rows) - {accountName.value}
    {
      if !Truthy(accountName) {
        return;
      }
      store.rows := store.rows - {accountName.value};
    }
  }

  /**
   * `Account.load`: `null` when there is no row; a new account filled from a
   * row that decrypts.  `decrypt_data` turns a failure into `None` itself,
   * so its `except` never runs and `set_save_data(None)` raises
   * `AttributeError` (`raised`).
   */
  method Load(store: AccountStore, name: string) returns (a: Account?, raised: bool)
    ensures raised <==> name in store.rows && store.rows[name].Undecryptable?
    ensures name !in store.rows || raised ==> a == null
    ensures name in store.rows && store.rows[name].Decrypted? ==>
      var d := store.rows[name].data;
      a != null && fresh(a) && fresh(a.session)
      && a.accountName == d.accountName && a.password == d.password
      && a.steamId == d.steamId && a.refreshToken == d.refreshToken
      && a.session.cookies == (if d.session.Some? then d.session.value else [])
  {
    a, raised := null, false;
    if name !in store.rows {
      return;
    }
    match store.rows[name] {
      case Undecryptable =>
        raised := true;
      case Decrypted(d) =>
        a := new Account();
        a.SetSaveData(d);
    }
  }

  /**
   * Saving an account and loading it back by its login gives back its
   * credentials and a new session with the same cookies, which later
   * changes to either session do not share.
   */
  method SaveThenLoad(account: Account, store: AccountStore) returns (loaded: Account?)
    requires Truthy(account.accountName)
    modifies store
    ensures loaded != null && fresh(loaded) && fresh(loaded.session)
    ensures loaded.accountName == account.accountName && loaded.password == account.password
    ensures loaded.steamId == account.steamId && loaded.refreshToken == account.refreshToken
    ensures loaded.session.cookies == account.session.cookies && loaded.session != account.session
  {
    account.Save(store);
    var raised;
    loaded, raised := Load(store, account.accountName.value);
  }
}
