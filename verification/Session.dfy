/**
  session.go and session_adapter_cookie.go: a session is serialized to a string map, printed,
  escaped, signed, and read back, with its expiry checked on the way in.
 */
module Session {
  import opened Common
  import opened Decimal
  import opened CookieText
  import opened Escape
  import opened Text

  const TIMESTAMP_KEY: Bytes := "_TS"
  const SESSION_VALUE_NAME: Bytes := "session"
  const OBJECT_KEY: Bytes := "_object_"
  const MAP_KEY: Bytes := "_map_"

  /** A stored value: a string, a map[string]string, or anything else by its JSON text, if it has one. */
  datatype Val = Str(s: Bytes) | JsonMap(m: map<Bytes, Bytes>) | Other(json: Option<Bytes>)

  /**
    encoding/json on map[string]string. It is an inverse pair on the maps in `exact` (those of valid
    UTF-8 text), and its texts escape control characters.
   */
  datatype Json = Json(
    marshal: map<Bytes, Bytes> -> Bytes,
    unmarshal: Bytes -> Option<map<Bytes, Bytes>>,
    exact: map<Bytes, Bytes> -> bool)
  {
    ghost predicate Ok() {
      && (forall m :: exact(m) ==> unmarshal(marshal(m)) == Some(m))
      && (forall m :: NUL !in marshal(m))
    }
  }

  /** The keyed hash is any function of the secret key and the message. */
  datatype Signer = Signer(secretKey: Bytes, mac: (Bytes, Bytes) -> Bytes) {
    function Sign(message: Bytes): Bytes {
      if secretKey == [] then [] else HexEncode(mac(secretKey, message))
    }

    predicate Verify(message: Bytes, sig: Bytes) { sig == Sign(message) }

    lemma SignHasNoHyphen(message: Bytes)
      ensures '-' !in Sign(message)
    {
      HexHasNoHyphen(mac(secretKey, message));
    }
  }

  type Data = map<Bytes, Val>

  // ----- what the methods compute -----

  /** The JSON texts kept under the object key; a value of another type there counts as none. */
  function Objects(d: Data): map<Bytes, Bytes> {
    if OBJECT_KEY in d && d[OBJECT_KEY].JsonMap? then d[OBJECT_KEY].m else map[]
  }

  /** Without the value, and without any JSON text kept for it. */
  function Deleted(d: Data, key: Bytes): Data { d[OBJECT_KEY := JsonMap(Objects(d) - {key})] - {key} }

  predicate Reserved(k: Bytes) { k == OBJECT_KEY || k == MAP_KEY }

  function JsonText(json: Json, v: Val): Option<Bytes> {
    match v
    case Str(_) => None
    case JsonMap(m) => Some(json.marshal(m))
    case Other(text) => text
  }

  /** The string entries among `keys`. */
  function StringsIn(d: Data, keys: set<Bytes>): map<Bytes, Bytes> {
    map k | k in d && k in keys && !Reserved(k) && d[k].Str? :: d[k].s
  }

  /** The JSON texts of the other entries among `keys`. */
  function TextsIn(json: Json, d: Data, keys: set<Bytes>): map<Bytes, Bytes> {
    map k | k in d && k in keys && !Reserved(k) && JsonText(json, d[k]).Some? :: JsonText(json, d[k]).value
  }

  function Strings(d: Data): map<Bytes, Bytes> { StringsIn(d, d.Keys) }

  /** The kept JSON texts, overlaid with those of the values that are not strings. */
  function ObjectTexts(json: Json, d: Data): map<Bytes, Bytes> {
    Objects(d) + TextsIn(json, d, d.Keys)
  }

  function Serialized(json: Json, d: Data): map<Bytes, Bytes> {
    var objects := ObjectTexts(json, d);
    if objects == map[] then Strings(d) else Strings(d)[OBJECT_KEY := json.marshal(objects)]
  }

  /** One entry of Load; an object text that does not unmarshal is skipped. */
  function LoadedEntry(json: Json, base: Data, k: Bytes, text: Bytes): Data {
    if k == OBJECT_KEY then
      var target := json.unmarshal(text);
      if target.Some? then base[k := JsonMap(target.value)] else base
    else base[k := Str(text)]
  }

  function Loaded(json: Json, base: Data, data: map<Bytes, Bytes>): Data {
    if OBJECT_KEY in data && json.unmarshal(data[OBJECT_KEY]).Some?
    then (base + AsStrings(data))[OBJECT_KEY := JsonMap(json.unmarshal(data[OBJECT_KEY]).value)]
    else base + AsStrings(data)
  }

  /** The entries that Load stores as strings. */
  function AsStrings(data: map<Bytes, Bytes>): Data { map k | k in data && k != OBJECT_KEY :: Str(data[k]) }

  // ----- time -----

  const SECOND: int := 1_000_000_000

  /** Go's time.Time{} in nanoseconds since 1970. */
  const ZERO_TIME: int := -62_135_596_800 * SECOND

  function Unix(t: int): int { t / SECOND }

  /** Whole seconds, cut off toward zero. */
  function Seconds(d: int): int { if d >= 0 then d / SECOND else -(-d / SECOND) }

  /** Seconds since 1970 are rounded down, and a duration toward zero. */
  lemma WholeSeconds(t: int)
    ensures Unix(t) * SECOND <= t < Unix(t) * SECOND + SECOND
    ensures t >= 0 ==> Seconds(t) == Unix(t) && Seconds(-t) == -Unix(t)
  {
  }

  function Expiration(d: Data, expireAfter: int, now: int): int {
    if expireAfter == 0 || (TIMESTAMP_KEY in d && d[TIMESTAMP_KEY] == Str(SESSION_VALUE_NAME)) then ZERO_TIME
    else now + expireAfter
  }

  /** The timestamp that GetCookie writes. */
  function Stamp(ts: int): Bytes {
    if ts == ZERO_TIME then SESSION_VALUE_NAME else FormatInt(Unix(ts))
  }

  function Stamped(d: Data, expireAfter: int, now: int): Data {
    d[TIMESTAMP_KEY := Str(Stamp(Expiration(d, expireAfter, now)))]
  }

  /** SessionTimeoutExpiredOrMissing; the timestamp must be a string, as Load always stores it. */
  predicate ExpiredOrMissing(d: Data, now: int)
    requires TIMESTAMP_KEY in d ==> d[TIMESTAMP_KEY].Str?
  {
    if TIMESTAMP_KEY !in d then true
    else if d[TIMESTAMP_KEY].s == SESSION_VALUE_NAME then false
    else AtoiDroppingError(d[TIMESTAMP_KEY].s) < Unix(now)
  }

  /** The keys and values that GetCookie does not panic on. */
  predicate Encodable(m: map<Bytes, Bytes>) {
    forall k :: k in m ==> ':' !in k && NUL !in k && NUL !in m[k]
  }

  // ----- the session -----

  class Session {
    var data: Data

    constructor ()
      ensures data == map[]
    {
      data := map[];
    }

    /** Makes sure a JSON map is stored under the object key, and returns it. */
    method GetSessionJsonMap() returns (m: map<Bytes, Bytes>)
      modifies this
      ensures m == Objects(old(data)) && data == old(data)[OBJECT_KEY := JsonMap(m)]
    {
      if OBJECT_KEY in data {
        if !data[OBJECT_KEY].JsonMap? {
          data := data[OBJECT_KEY := JsonMap(map[])];
        }
      } else {
        data := data[OBJECT_KEY := JsonMap(map[])];
      }
      m := data[OBJECT_KEY].m;
    }

    /** Stores a value; None is nil, and deletes. */
    method Set(key: Bytes, value: Option<Val>)
      modifies this
      ensures value.Some? ==> data == old(data)[key := value.value]
      ensures value.None? ==> data == Deleted(old(data), key)
    {
      if value.None? {
        Del(key);
      } else {
        data := data[key := value.value];
      }
    }

    /** Deletes the value and any JSON text kept for it. */
    method Del(key: Bytes)
      modifies this
      ensures data == Deleted(old(data), key)
    {
      var m := GetSessionJsonMap();
      data := data[OBJECT_KEY := JsonMap(m - {key})];
      data := data - {key};
    }

    /** The string map that goes into the cookie; the entries are visited in any order. */
    method Serialize(json: Json) returns (newMap: map<Bytes, Bytes>)
      modifies this
      ensures newMap == Serialized(json, old(data))
      ensures data == old(data)[OBJECT_KEY := JsonMap(Objects(old(data)))]
    {
      var newObjectMap := GetSessionJsonMap();
      ObjectKeyUnseen(json, old(data));
      newMap, newObjectMap := Gather(json, data, newObjectMap);
      if newObjectMap != map[] {
        newMap := newMap[OBJECT_KEY := json.marshal(newObjectMap)];
      }
    }

    /** The loop of Serialize over the session's entries. */
    static method Gather(json: Json, d: Data, kept: map<Bytes, Bytes>)
      returns (newMap: map<Bytes, Bytes>, newObjectMap: map<Bytes, Bytes>)
      ensures newMap == Strings(d)
      ensures newObjectMap == kept + TextsIn(json, d, d.Keys)
    {
      newMap, newObjectMap := map[], kept;
      var left := d.Keys;
      ghost var done: set<Bytes> := {};
      while left != {}
        invariant done + left == d.Keys && done !! left
        invariant newMap == StringsIn(d, done)
        invariant newObjectMap == kept + TextsIn(json, d, done)
        decreases |left|
      {
        var key :| key in left;
        left := left - {key};
        OneMoreString(d, done, key);
        OneMoreText(json, d, kept, done, key);
        done := done + {key};
        if key == OBJECT_KEY || key == MAP_KEY { continue; }
        var value := d[key];
        if value.Str? {
          newMap := newMap[key := value.s];
          continue;
        }
        var text := JsonText(json, value);
        if text.Some? {
          newObjectMap := newObjectMap[key := text.value];
        }
      }
      assert done == d.Keys;
    }

    /** Overwrites the session with the entries of `tempMap`, visited in any order. */
    method Load(json: Json, tempMap: map<Bytes, Bytes>)
      modifies this
      ensures data == Loaded(json, old(data), tempMap) && IsLoaded(json, old(data), tempMap, data)
    {
      var left := tempMap.Keys;
      while left != {}
        invariant left <= tempMap.Keys
        invariant data == Loaded(json, old(data), Without(tempMap, left))
        decreases |left|
      {
        var key :| key in left;
        OneLess(tempMap, left, key);
        LoadedMore(json, old(data), Without(tempMap, left), key, tempMap[key]);
        left := left - {key};
        data := LoadedEntry(json, data, key, tempMap[key]);
      }
      assert Without(tempMap, {}) == tempMap;
      LoadedIs(json, old(data), tempMap);
    }
  }

  /** The entries that have been visited. */
  ghost function Without(m: map<Bytes, Bytes>, left: set<Bytes>): map<Bytes, Bytes> {
    map k | k in m && k !in left :: m[k]
  }

  lemma OneLess(m: map<Bytes, Bytes>, left: set<Bytes>, key: Bytes)
    requires key in left && key in m
    ensures Without(m, left - {key}) == Without(m, left)[key := m[key]] && key !in Without(m, left)
  {
  }

  lemma OneMoreString(d: Data, keys: set<Bytes>, key: Bytes)
    requires key in d && key !in keys
    ensures StringsIn(d, keys + {key})
         == if !Reserved(key) && d[key].Str? then StringsIn(d, keys)[key := d[key].s] else StringsIn(d, keys)
  {
  }

  lemma OneMoreText(json: Json, d: Data, kept: map<Bytes, Bytes>, keys: set<Bytes>, key: Bytes)
    requires key in d && key !in keys
    ensures kept + TextsIn(json, d, keys + {key})
         == if !Reserved(key) && JsonText(json, d[key]).Some?
            then (kept + TextsIn(json, d, keys))[key := JsonText(json, d[key]).value] else kept + TextsIn(json, d, keys)
  {
    assert TextsIn(json, d, keys + {key})
        == if !Reserved(key) && JsonText(json, d[key]).Some?
           then TextsIn(json, d, keys)[key := JsonText(json, d[key]).value] else TextsIn(json, d, keys);
  }

  /** What is stored under the object key does not matter to the other entries. */
  lemma ObjectKeyUnseen(json: Json, d: Data)
    ensures var d' := d[OBJECT_KEY := JsonMap(Objects(d))];
            Strings(d') == Strings(d) && Objects(d) + TextsIn(json, d', d'.Keys) == ObjectTexts(json, d)
  {
    var d' := d[OBJECT_KEY := JsonMap(Objects(d))];
    assert Strings(d') == Strings(d);
    assert TextsIn(json, d', d'.Keys) == TextsIn(json, d, d.Keys);
  }

  lemma LoadedMore(json: Json, base: Data, done: map<Bytes, Bytes>, key: Bytes, text: Bytes)
    requires key !in done
    ensures Loaded(json, base, done[key := text]) == LoadedEntry(json, Loaded(json, base, done), key, text)
  {
    StringsMore(done, key, text);
    if key != OBJECT_KEY {
      assert base + AsStrings(done)[key := Str(text)] == (base + AsStrings(done))[key := Str(text)];
    }
  }

  lemma StringsMore(done: map<Bytes, Bytes>, key: Bytes, text: Bytes)
    requires key !in done
    ensures AsStrings(done[key := text])
         == if key == OBJECT_KEY then AsStrings(done) else AsStrings(done)[key := Str(text)]
  {
  }

  // ----- the cookie -----

  /** The signed part of a cookie value, if its signature verifies. */
  function Payload(signer: Signer, cookieValue: Bytes): Option<Bytes> {
    var hyphen := IndexOf(cookieValue, '-');
    if hyphen == -1 || hyphen >= |cookieValue| - 1 then None
    else
      var sig, data := cookieValue[..hyphen], cookieValue[hyphen + 1..];
      if signer.Verify(data, sig) then Some(data) else None
  }

  /** The cookie value of `data`: its signature, which is empty without a key, a hyphen and the data. */
  predicate Signs(signer: Signer, data: Bytes, cookieValue: Bytes) {
    && data != []
    && cookieValue == (if signer.secretKey == [] then [] else HexEncode(signer.mac(signer.secretKey, data)))
                      + ['-'] + data
  }

  /** A cookie value is accepted exactly when it is the signed form of some data. */
  lemma AcceptedIff(signer: Signer, cookieValue: Bytes, data: Bytes)
    ensures Payload(signer, cookieValue) == Some(data) <==> Signs(signer, data, cookieValue)
  {
    if Signs(signer, data, cookieValue) { SignatureEnds(signer, data); }
    if Payload(signer, cookieValue) == Some(data) {
      var hyphen := IndexOf(cookieValue, '-');
      assert cookieValue == cookieValue[..hyphen] + ['-'] + cookieValue[hyphen + 1..];
    }
  }

  lemma PayloadIs(signer: Signer, cookieValue: Bytes)
    ensures Payload(signer, cookieValue).None? <==> forall data :: !Signs(signer, data, cookieValue)
    ensures forall data :: Signs(signer, data, cookieValue) ==> Payload(signer, cookieValue) == Some(data)
  {
    var p := Payload(signer, cookieValue);
    if p.Some? { AcceptedIff(signer, cookieValue, p.value); }
    forall data ensures Signs(signer, data, cookieValue) ==> p == Some(data) {
      AcceptedIff(signer, cookieValue, data);
    }
  }

  /** The first hyphen of a signed text ends the signature, which verifies. */
  lemma SignatureEnds(signer: Signer, data: Bytes)
    requires data != []
    ensures Payload(signer, signer.Sign(data) + ['-'] + data) == Some(data)
  {
    var sig := signer.Sign(data);
    var value := sig + ['-'] + data;
    signer.SignHasNoHyphen(data);
    assert value[..|sig|] == sig && value[|sig| + 1..] == data;
    IndexOfIs(value, '-', |sig|);
  }

  /** What decoding a cookie value does to a session's data. */
  function Decoded(json: Json, signer: Signer, now: int, cookieValue: Bytes, base: Data): Data {
    var data := Payload(signer, cookieValue);
    if data.None? then base else Checked(Loaded(json, base, AsMap(CookiePairs(data.value))), now)
  }

  /** The expiry check after loading; a loaded timestamp is always a string. */
  function Checked(d: Data, now: int): Data {
    if (TIMESTAMP_KEY in d ==> d[TIMESTAMP_KEY].Str?) && ExpiredOrMissing(d, now) then map[] else d
  }

  /** Every pair is stored as a string, and the object text as its map when it can be read; nothing else changes. */
  ghost predicate IsLoaded(json: Json, base: Data, m: map<Bytes, Bytes>, d: Data) {
    && (forall k :: k in d <==> k in base || (k in m && (k == OBJECT_KEY ==> json.unmarshal(m[k]).Some?)))
    && (forall k :: k in d ==>
          d[k] == if k !in m || (k == OBJECT_KEY && json.unmarshal(m[k]).None?) then base[k]
                  else if k == OBJECT_KEY then JsonMap(json.unmarshal(m[k]).value)
                  else Str(m[k]))
  }

  lemma LoadedIs(json: Json, base: Data, m: map<Bytes, Bytes>)
    ensures IsLoaded(json, base, m, Loaded(json, base, m))
  {
  }

  /** The session has a timestamp, and it says "session" or a second that is not past. */
  ghost predicate Current(d: Data, now: int) {
    && TIMESTAMP_KEY in d && d[TIMESTAMP_KEY].Str?
    && (d[TIMESTAMP_KEY].s == SESSION_VALUE_NAME || exists n :: AtoiGives(d[TIMESTAMP_KEY].s, n) && Unix(now) <= n)
  }

  lemma CurrentIff(d: Data, now: int)
    requires TIMESTAMP_KEY in d ==> d[TIMESTAMP_KEY].Str?
    ensures Current(d, now) <==> !ExpiredOrMissing(d, now)
  {
    if TIMESTAMP_KEY in d {
      var text := d[TIMESTAMP_KEY].s;
      AtoiIff(text, AtoiDroppingError(text));
      forall n | AtoiGives(text, n) ensures n == AtoiDroppingError(text) { AtoiIff(text, n); }
    }
  }

  /** What a cookie of `data` leaves of the session: everything loaded while it is current, and else nothing. */
  ghost predicate Opened(json: Json, base: Data, data: Bytes, now: int, d: Data) {
    exists loaded :: IsLoaded(json, base, AsMap(CookiePairs(data)), loaded)
                     && d == if Current(loaded, now) then loaded else map[]
  }

  lemma CheckedIsOpened(json: Json, base: Data, data: Bytes, now: int, loaded: Data)
    requires IsLoaded(json, base, AsMap(CookiePairs(data)), loaded)
    requires TIMESTAMP_KEY in loaded ==> loaded[TIMESTAMP_KEY].Str?
    ensures Opened(json, base, data, now, Checked(loaded, now))
  {
    CurrentIff(loaded, now);
  }

  /** The session does not last as long as the browser. */
  predicate HasLife(d: Data, expireAfter: int) {
    expireAfter != 0 && !(TIMESTAMP_KEY in d && d[TIMESTAMP_KEY] == Str(SESSION_VALUE_NAME))
  }

  datatype Cookie = Cookie(value: Bytes, expires: int, maxAge: int)

  class SessionCookieEngine {
    const expireAfter: int

    constructor (expireAfter: int)
      ensures this.expireAfter == expireAfter
    {
      this.expireAfter := expireAfter;
    }

    /**
      Stamps the session, serializes it and signs the text; the entries are printed in any order.
      None is the panic on a colon or a NUL.
     */
    method GetCookie(json: Json, signer: Signer, now: int, s: Session)
      returns (cookie: Option<Cookie>, ghost order: seq<Pair>)
      modifies s
      ensures var d := Stamped(old(s.data), expireAfter, now);
              && s.data == d[OBJECT_KEY := JsonMap(Objects(d))]
              && (cookie.Some? <==> Encodable(Serialized(json, d)))
              && (cookie.Some? ==>
                    && Lists(order, Serialized(json, d))
                    && cookie.value.value == SignedText(signer, Print(order))
                    && cookie.value.expires
                       == (if HasLife(old(s.data), expireAfter) then now + expireAfter else ZERO_TIME)
                    && cookie.value.maxAge == Seconds(expireAfter))
    {
      order := [];
      var ts := Expiration(s.data, expireAfter, now);
      s.Set(TIMESTAMP_KEY, Some(Str(Stamp(ts))));
      var stringMap := s.Serialize(json);
      var sessionValue;
      sessionValue, order := PrintSession(stringMap);
      if sessionValue.None? { return None, order; }
      cookie := Some(Cookie(SignedText(signer, sessionValue.value), ts, Seconds(expireAfter)));
    }

    /** The loop of GetCookie over the string map; None is the panic on a colon or a NUL. */
    method PrintSession(stringMap: map<Bytes, Bytes>) returns (text: Option<Bytes>, ghost order: seq<Pair>)
      ensures text.Some? <==> Encodable(stringMap)
      ensures text.Some? ==> Lists(order, stringMap) && text.value == Print(order)
    {
      order := [];
      var left := stringMap.Keys;
      var sessionValue: Bytes := [];
      while left != {}
        invariant left <= stringMap.Keys
        invariant Lists(order, Visited(stringMap, left)) && sessionValue == Print(order)
        invariant forall k :: k in stringMap && k !in left ==> ':' !in k && NUL !in k && NUL !in stringMap[k]
        decreases |left|
      {
        var key :| key in left;
        var value := stringMap[key];
        if ':' in key || NUL in key || NUL in value {
          return None, order;
        }
        PrintedMore(stringMap, left, order, key);
        left := left - {key};
        sessionValue := sessionValue + [NUL] + key + [':'] + value + [NUL];
        order := order + [Pair(key, value)];
      }
      VisitedAll(stringMap);
      text := Some(sessionValue);
    }

    /**
      A cookie that is not the signed form of some data changes nothing. Not ok is the panic on a timestamp
      that is no string, which only a non-empty session can hold.
     */
    method DecodeCookie(json: Json, signer: Signer, now: int, cookieValue: Bytes, s: Session) returns (ok: bool)
      modifies s
      ensures s.data == Decoded(json, signer, now, cookieValue, old(s.data))
      ensures (forall data :: !Signs(signer, data, cookieValue)) ==> ok && s.data == old(s.data)
      ensures forall data :: ok && Signs(signer, data, cookieValue) ==> Opened(json, old(s.data), data, now, s.data)
      ensures (TIMESTAMP_KEY in old(s.data) ==> old(s.data)[TIMESTAMP_KEY].Str?) ==> ok
    {
      ok := true;
      PayloadIs(signer, cookieValue);
      var hyphen := IndexOf(cookieValue, '-');
      if hyphen == -1 || hyphen >= |cookieValue| - 1 { return; }
      var sig, data := cookieValue[..hyphen], cookieValue[hyphen + 1..];
      if !signer.Verify(data, sig) { return; }
      var calls := ParseKeyValueCookie(data);
      var tempMap := StoreAll(calls);
      LoadedTimestamp(json, s.data, tempMap);
      s.Load(json, tempMap);
      if TIMESTAMP_KEY in s.data && !s.data[TIMESTAMP_KEY].Str? { return false; }
      CheckedIsOpened(json, old(s.data), data, now, s.data);
      if ExpiredOrMissing(s.data, now) {
        s.data := map[];
      }
    }
  }

  function SignedText(signer: Signer, text: Bytes): Bytes {
    signer.Sign(QueryEscape(text)) + ['-'] + QueryEscape(text)
  }

  // ----- round trips -----

  /** Only the keys and values of string entries can make GetCookie panic: JSON text holds no NUL. */
  lemma OnlyStringsPanic(json: Json, d: Data)
    requires json.Ok()
    ensures Encodable(Serialized(json, d)) <==> Encodable(Strings(d))
  {
    var m := Serialized(json, d);
    assert OBJECT_KEY !in Strings(d) && ':' !in OBJECT_KEY && NUL !in OBJECT_KEY;
    assert forall k :: k in Strings(d) ==> k in m && m[k] == Strings(d)[k];
    assert OBJECT_KEY in m ==> m[OBJECT_KEY] == json.marshal(ObjectTexts(json, d));
    assert forall k :: k in m ==> k in Strings(d) || k == OBJECT_KEY;
  }

  /** What a session keeps across a cookie: its strings, and the JSON texts of its other values. */
  function Restored(json: Json, d: Data): Data {
    var strings := map k | k in Strings(d) :: Str(Strings(d)[k]);
    var objects := ObjectTexts(json, d);
    if objects == map[] then strings else strings[OBJECT_KEY := JsonMap(objects)]
  }

  predicate IsString(d: Data, k: Bytes) { k in d && k != OBJECT_KEY && k != MAP_KEY && d[k].Str? }

  /** `text` is the JSON text of a value that is not a string, or one that was kept for a key without such a value. */
  predicate IsObject(json: Json, d: Data, k: Bytes, text: Bytes) {
    if k in d && k != OBJECT_KEY && k != MAP_KEY && HasJson(d[k])
    then text == if d[k].JsonMap? then json.marshal(d[k].m) else d[k].json.value
    else k in Objects(d) && text == Objects(d)[k]
  }

  predicate HasJson(v: Val) { v.JsonMap? || (v.Other? && v.json.Some?) }

  /** `next` holds the strings of `d`, the JSON texts of its other values and those kept before, and nothing else. */
  ghost predicate Carries(json: Json, d: Data, next: Data) {
    && (forall k :: k in next && k != OBJECT_KEY <==> IsString(d, k))
    && (forall k :: IsString(d, k) ==> next[k] == d[k])
    && (OBJECT_KEY in next ==> next[OBJECT_KEY].JsonMap?)
    && forall k, text :: k in Objects(next) && Objects(next)[k] == text <==> IsObject(json, d, k, text)
  }

  lemma RestoredCarries(json: Json, d: Data)
    ensures Carries(json, d, Restored(json, d))
  {
    RestoredStrings(json, d);
    forall k, text
      ensures k in ObjectTexts(json, d) && ObjectTexts(json, d)[k] == text <==> IsObject(json, d, k, text)
    {
    }
    assert Objects(Restored(json, d)) == ObjectTexts(json, d);
  }

  lemma StringsAre(d: Data)
    ensures forall k :: k in Strings(d) <==> IsString(d, k)
    ensures forall k :: IsString(d, k) ==> Strings(d)[k] == d[k].s
  {
  }

  lemma RestoredStrings(json: Json, d: Data)
    ensures forall k :: k in Restored(json, d) && k != OBJECT_KEY <==> IsString(d, k)
    ensures forall k :: IsString(d, k) ==> Restored(json, d)[k] == d[k]
  {
    StringsAre(d);
  }

  lemma DeletedParts(json: Json, d: Data, key: Bytes, expireAfter: int, now: int, k: Bytes, text: Bytes)
    requires key != OBJECT_KEY && key != TIMESTAMP_KEY
    ensures var deleted, kept := Stamped(Deleted(d, key), expireAfter, now), Stamped(d, expireAfter, now);
            && (IsString(deleted, k) <==> k != key && IsString(kept, k))
            && (k in deleted && k != OBJECT_KEY ==> deleted[k] == kept[k])
            && (IsObject(json, deleted, k, text) <==> k != key && IsObject(json, kept, k, text))
  {
  }

  /**
    A value deleted before the cookie is made is gone from the next request, its kept JSON text too, and
    everything else is there as it would have been.
   */
  lemma DeletedIsGone(json: Json, d: Data, key: Bytes, expireAfter: int, now: int, next: Data, other: Data)
    requires key != OBJECT_KEY && key != TIMESTAMP_KEY
    requires Carries(json, Stamped(Deleted(d, key), expireAfter, now), next)
    requires Carries(json, Stamped(d, expireAfter, now), other)
    ensures next - {OBJECT_KEY} == other - {OBJECT_KEY, key}
    ensures Objects(next) == Objects(other) - {key}
  {
    var deleted, kept := Stamped(Deleted(d, key), expireAfter, now), Stamped(d, expireAfter, now);
    forall k, text
      ensures IsString(deleted, k) <==> k != key && IsString(kept, k)
      ensures k in deleted && k != OBJECT_KEY ==> deleted[k] == kept[k]
      ensures IsObject(json, deleted, k, text) <==> k != key && IsObject(json, kept, k, text)
    {
      DeletedParts(json, d, key, expireAfter, now, k, text);
    }
    StringsLess(json, deleted, kept, key, next, other);
    ObjectsLess(json, deleted, kept, key, next, other);
  }

  lemma StringsLess(json: Json, d: Data, e: Data, key: Bytes, next: Data, other: Data)
    requires Carries(json, d, next) && Carries(json, e, other)
    requires forall k :: IsString(d, k) <==> k != key && IsString(e, k)
    requires forall k :: IsString(d, k) ==> d[k] == e[k]
    ensures next - {OBJECT_KEY} == other - {OBJECT_KEY, key}
  {
    forall k ensures k in next - {OBJECT_KEY} <==> k in other - {OBJECT_KEY, key} {
      assert IsString(d, k) <==> k != key && IsString(e, k);
    }
  }

  lemma ObjectsLess(json: Json, d: Data, e: Data, key: Bytes, next: Data, other: Data)
    requires Carries(json, d, next) && Carries(json, e, other)
    requires forall k, text :: IsObject(json, d, k, text) <==> k != key && IsObject(json, e, k, text)
    ensures Objects(next) == Objects(other) - {key}
  {
    forall k | k in Objects(next) ensures k in Objects(other) && k != key && Objects(other)[k] == Objects(next)[k] {
      assert IsObject(json, d, k, Objects(next)[k]);
    }
    forall k | k in Objects(other) && k != key ensures k in Objects(next) {
      assert IsObject(json, d, k, Objects(other)[k]);
    }
  }

  /** Loading a serialized session into an empty one restores exactly that. */
  lemma LoadSerialized(json: Json, d: Data)
    requires json.Ok() && json.exact(ObjectTexts(json, d))
    ensures Loaded(json, map[], Serialized(json, d)) == Restored(json, d)
  {
    var data, base: Data := Serialized(json, d), map[];
    assert OBJECT_KEY !in Strings(d);
    assert AsStrings(data) == map k | k in Strings(d) :: Str(Strings(d)[k]);
    assert base + AsStrings(data) == AsStrings(data);
  }

  /** Serializing what was loaded gives the same string map again. */
  lemma SerializeFixpoint(json: Json, d: Data)
    requires json.Ok() && json.exact(ObjectTexts(json, d))
    ensures Serialized(json, Loaded(json, map[], Serialized(json, d))) == Serialized(json, d)
  {
    LoadSerialized(json, d);
    RestoredParts(json, d);
  }

  lemma RestoredParts(json: Json, d: Data)
    ensures Strings(Restored(json, d)) == Strings(d)
    ensures ObjectTexts(json, Restored(json, d)) == ObjectTexts(json, d)
  {
    var r := Restored(json, d);
    assert TextsIn(json, r, r.Keys) == map[];
    assert Objects(r) == ObjectTexts(json, d);
    assert StringsIn(r, r.Keys) == Strings(d);
  }

  lemma SignedPayload(signer: Signer, text: Bytes)
    requires text != []
    ensures Payload(signer, SignedText(signer, text)) == Some(QueryEscape(text))
  {
    EscapeNonEmpty(text);
    SignatureEnds(signer, QueryEscape(text));
  }

  /** Decoding a verified cookie loads its pairs and checks the expiry. */
  lemma DecodeVerified(json: Json, signer: Signer, now: int, value: Bytes, data: Bytes, m: map<Bytes, Bytes>)
    requires Payload(signer, value) == Some(data) && AsMap(CookiePairs(data)) == m
    ensures Decoded(json, signer, now, value, map[]) == Checked(Loaded(json, map[], m), now)
  {
  }

  /** Load stores the timestamp as a string. */
  lemma LoadedTimestamp(json: Json, base: Data, data: map<Bytes, Bytes>)
    ensures var d := Loaded(json, base, data);
            (TIMESTAMP_KEY in base ==> base[TIMESTAMP_KEY].Str?) ==> (TIMESTAMP_KEY in d ==> d[TIMESTAMP_KEY].Str?)
  {
  }

  /** Whether the stamp of a cookie made at `now` for `expireAfter` is past at `later`. */
  predicate StampPast(ts: int, later: int) {
    ts != ZERO_TIME && Unix(ts) < Unix(later)
  }

  /** The expiry check reads the stamp back as the time that was written. */
  lemma StampReadsBack(d: Data, ts: int, later: int)
    requires TIMESTAMP_KEY in d && d[TIMESTAMP_KEY] == Str(Stamp(ts)) && -TWO63 <= Unix(ts) < TWO63
    ensures ExpiredOrMissing(d, later) <==> StampPast(ts, later)
  {
    if ts != ZERO_TIME {
      ParseIntOfFormat(Unix(ts));
      NumberIsNotSession(Unix(ts));
    }
  }

  lemma NumberIsNotSession(n: int)
    ensures FormatInt(n) != SESSION_VALUE_NAME
  {
    if FormatInt(n) == SESSION_VALUE_NAME {
      assert SESSION_VALUE_NAME[0] == 's';
      FormatIntChars(n, FormatInt(n)[0]);
    }
  }

  /**
    A cookie made from a session and decoded into an empty one restores every string entry and the
    JSON text of every other entry while the stamp is not past, and leaves nothing once it is.
   */
  lemma SessionRoundTrip(json: Json, signer: Signer, d: Data, ts: int, later: int, order: seq<Pair>)
    requires json.Ok() && json.exact(ObjectTexts(json, d))
    requires TIMESTAMP_KEY in d && d[TIMESTAMP_KEY] == Str(Stamp(ts)) && -TWO63 <= Unix(ts) < TWO63
    requires Encodable(Serialized(json, d)) && Lists(order, Serialized(json, d))
    ensures Decoded(json, signer, later, SignedText(signer, Print(order)), map[])
         == if StampPast(ts, later) then map[] else Restored(json, d)
  {
    StampIsListed(json, d, order);
    ListingAsMap(order, Serialized(json, d));
    LoadSerialized(json, d);
    SignedPayload(signer, Print(order));
    CookieRoundTrip(order);
    var value := SignedText(signer, Print(order));
    DecodeVerified(json, signer, later, value, QueryEscape(Print(order)), Serialized(json, d));
    RestoredStamp(json, d);
    StampReadsBack(Restored(json, d), ts, later);
  }

  lemma StampIsListed(json: Json, d: Data, order: seq<Pair>)
    requires TIMESTAMP_KEY in d && d[TIMESTAMP_KEY].Str? && Lists(order, Serialized(json, d))
    ensures Print(order) != []
  {
    assert TIMESTAMP_KEY in Strings(d);
    assert TIMESTAMP_KEY in Serialized(json, d);
  }

  lemma RestoredStamp(json: Json, d: Data)
    requires TIMESTAMP_KEY in d && d[TIMESTAMP_KEY].Str?
    ensures TIMESTAMP_KEY in Restored(json, d) && Restored(json, d)[TIMESTAMP_KEY] == d[TIMESTAMP_KEY]
  {
    assert TIMESTAMP_KEY in Strings(d);
  }

  /** The time to live is over, in whole seconds. */
  predicate Lapsed(d: Data, expireAfter: int, now: int, later: int) {
    HasLife(d, expireAfter) && now + expireAfter != ZERO_TIME && Unix(now + expireAfter) < Unix(later)
  }

  /**
    The two calls, one request apart. The next request finds the strings and JSON texts of this one, with the
    stamp, until the time to live is over, and then nothing.
   */
  method NextRequest(engine: SessionCookieEngine, json: Json, signer: Signer, now: int, later: int, s: Session)
    returns (next: Session, sent: bool)
    requires json.Ok() && json.exact(ObjectTexts(json, Stamped(s.data, engine.expireAfter, now)))
    requires -TWO63 <= Unix(Expiration(s.data, engine.expireAfter, now)) < TWO63
    modifies s
    ensures fresh(next)
    ensures var d := Stamped(old(s.data), engine.expireAfter, now);
            && (sent <==> Encodable(Strings(d)))
            && (sent <==> forall k :: IsString(d, k) ==> ':' !in k && NUL !in k && NUL !in d[k].s)
            && if sent && !Lapsed(old(s.data), engine.expireAfter, now, later)
               then next.data == Restored(json, d) && Carries(json, d, next.data)
               else next.data == map[]
  {
    next := new Session();
    ghost var ts := Expiration(s.data, engine.expireAfter, now);
    ghost var d := Stamped(s.data, engine.expireAfter, now);
    var cookie;
    ghost var order;
    cookie, order := engine.GetCookie(json, signer, now, s);
    OnlyStringsPanic(json, d);
    RestoredCarries(json, d);
    StringsAre(d);
    sent := cookie.Some?;
    if sent {
      SessionRoundTrip(json, signer, d, ts, later, order);
      var ok := engine.DecodeCookie(json, signer, later, cookie.value.value, next);
    }
  }
}
