/**
 * The browser's copy of the signed-in user: a record kept as JSON text under
 * one localStorage key. `normalizeUserRecord` completes a record from the
 * defaults; reading normalises what is stored and discards what cannot be
 * read; persisting writes the record with an explicit `password` field.
 * `JSON.parse` and `JSON.stringify` are parameters of the model.
 */
module UserRecord {
  import opened Wrappers
  import opened JsText
  import opened JsValues

  const UserRecordKey: string := "holdingUserRecordData"

  const DefaultLogin: string := "operator@holding"

  /** DEFAULT_USER. */
  const DefaultUser: map<string, Json> := map[
    "id" := JStr("operator-1"),
    "name" := JStr("Оператор производственного холдинга"),
    "login" := JStr(DefaultLogin),
    "password" := JNull,
    "lastLoginAt" := JNull
  ]

  /** A record: an object's own fields. */
  type Record = map<string, Json>

  /** `rawRecord && typeof rawRecord === 'object' ? rawRecord : DEFAULT_USER`. */
  function Source(raw: Json): (source: Json)
    ensures source.JObj? || source.JArr?
    ensures raw.JObj? || raw.JArr? ==> source == raw
    ensures !(raw.JObj? || raw.JArr?) ==> source == JObj(DefaultUser)
  {
    if raw.JObj? || raw.JArr? then raw else JObj(DefaultUser)
  }

  /** The own fields a spread copies; an array is taken to contribute none. */
  function OwnFields(source: Json): Record
  {
    if source.JObj? then source.fields else map[]
  }

  /** `source.password ?? login`. */
  function PasswordOr(source: Json, login: string): (password: Json)
    ensures password != JNull
    ensures Get(source, "password").Some? && Get(source, "password") != Some(JNull) ==> Some(password) == Get(source, "password")
    ensures Get(source, "password").None? || Get(source, "password") == Some(JNull) ==> password == JStr(login)
  {
    match Get(source, "password")
    case None => JStr(login)
    case Some(JNull) => JStr(login)
    case Some(v) => v
  }

  /** `(source.login || DEFAULT_USER.login)`: the login value before `trim`. */
  function LoginValue(source: Json): (v: Json)
    ensures Truthy(Get(source, "login")) ==> Some(v) == Get(source, "login")
    ensures !Truthy(Get(source, "login")) ==> v == JStr(DefaultLogin)
  {
    Or(Get(source, "login"), JStr(DefaultLogin))
  }

  /** `{ ...DEFAULT_USER, ...source, login, password }`. */
  function Merged(source: Json, login: string): Record
  {
    DefaultUser + OwnFields(source) + map["login" := JStr(login), "password" := PasswordOr(source, login)]
  }

  /**
   * `normalizeUserRecord(rawRecord)`. It throws a TypeError when the source's
   * `login` is truthy but not a string (`trim` is missing).
   */
  function Normalize(raw: Json): (r: Result<Record, Fault>)
    ensures r.Err? <==> !LoginValue(Source(raw)).JStr?
    ensures r.Err? ==> r.error == TypeError
    ensures r.Ok? ==> r.value == Merged(Source(raw), Trim(LoginValue(Source(raw)).s))
  {
    var source := Source(raw);
    var login := LoginValue(source);
    if !login.JStr? then Err(TypeError)
    else Ok(Merged(source, Trim(login.s)))
  }

  /** The record has the default keys and the source's own keys, and nothing else. */
  lemma NormalizeKeys(raw: Json)
    requires Normalize(raw).Ok?
    ensures Normalize(raw).value.Keys == DefaultUser.Keys + OwnFields(Source(raw)).Keys
  {
  }

  /** Every field but `login` and `password` is the source's own when it has one, else the default. */
  lemma NormalizeOtherFields(raw: Json, k: string)
    requires Normalize(raw).Ok? && k in Normalize(raw).value && k != "login" && k != "password"
    ensures var fields := OwnFields(Source(raw));
      Normalize(raw).value[k] == if k in fields then fields[k] else DefaultUser[k]
  {
  }

  /** The login is the source's trimmed login, or the default one when the source's is falsy. */
  lemma NormalizeLogin(raw: Json)
    requires Normalize(raw).Ok?
    ensures var login := Get(Source(raw), "login");
      Normalize(raw).value["login"] == JStr(Trim(if Truthy(login) then login.value.s else DefaultLogin))
  {
  }

  /** The password is the source's unless that is null or missing; then it is the resulting login. */
  lemma NormalizePassword(raw: Json)
    requires Normalize(raw).Ok?
    ensures var password := Get(Source(raw), "password");
      Normalize(raw).value["password"] ==
        if password.Some? && password != Some(JNull) then password.value else Normalize(raw).value["login"]
  {
    assert "login" != "password" by { assert "login"[0] != "password"[0]; }
  }

  /** The default login has nothing to trim. */
  lemma DefaultLoginTrimmed()
    ensures Trim(DefaultLogin) == DefaultLogin
  {
    TrimOfTrimmed(DefaultLogin);
  }

  /** The defaults with the default login as password. */
  const DefaultRecord: Record := DefaultUser["password" := JStr(DefaultLogin)]

  /** `normalizeUserRecord(DEFAULT_USER)` is DefaultRecord. */
  lemma DefaultNormalizes()
    ensures Normalize(JObj(DefaultUser)) == Ok(DefaultRecord)
  {
    DefaultLoginTrimmed();
    assert "login" != "password" by { assert "login"[0] != "password"[0]; }
    assert Get(JObj(DefaultUser), "login") == Some(JStr(DefaultLogin));
    assert Get(JObj(DefaultUser), "password") == Some(JNull);
    var e := map["login" := JStr(DefaultLogin), "password" := JStr(DefaultLogin)];
    assert Normalize(JObj(DefaultUser)) == Ok(DefaultUser + DefaultUser + e);
    MergeOverwritten(DefaultUser, DefaultUser, DefaultRecord, e);
    MergeAbsorbed(DefaultUser, DefaultRecord, JStr(DefaultLogin), JStr(DefaultLogin));
  }

  /** Spreading a record that already has every default key, and its own login and password, gives the record. */
  lemma MergeAbsorbed(d: Record, m: Record, login: Json, password: Json)
    requires d.Keys <= m.Keys && "login" in m && "password" in m
    requires m["login"] == login && m["password"] == password
    ensures d + m + map["login" := login, "password" := password] == m
  {
    var r := d + m + map["login" := login, "password" := password];
    assert r.Keys == m.Keys;
    assert forall k :: k in r ==> r[k] == m[k];
  }

  /** Two sources that differ only on keys written afterwards merge alike. */
  lemma MergeOverwritten(d: Record, p: Record, q: Record, e: Record)
    requires forall k :: k !in e ==> (k in p <==> k in q)
    requires forall k :: k !in e && k in p ==> p[k] == q[k]
    ensures d + p + e == d + q + e
  {
    var a, b := d + p + e, d + q + e;
    assert a.Keys == b.Keys;
    assert forall k :: k in a ==> a[k] == b[k];
  }

  /** Null, a primitive or any other non-object normalises exactly as DEFAULT_USER does. */
  lemma NonObjectUsesDefault(raw: Json)
    requires !(raw.JObj? || raw.JArr?)
    ensures Normalize(raw) == Ok(DefaultRecord)
  {
    DefaultNormalizes();
  }

  /** A stored empty-string password is kept: `??` only replaces null and a missing field. */
  lemma EmptyPasswordKept(fields: Record)
    requires "password" in fields && fields["password"] == JStr("")
    requires Normalize(JObj(fields)).Ok?
    ensures Normalize(JObj(fields)).value["password"] == JStr("")
  {
  }

  /** Normalising twice is normalising once, as long as the trimmed login is not empty. */
  lemma NormalizeIdempotent(raw: Json)
    requires Normalize(raw).Ok? && Normalize(raw).value["login"] != JStr("")
    ensures Normalize(JObj(Normalize(raw).value)) == Normalize(raw)
  {
    var m := Normalize(raw).value;
    assert "login" != "password" by { assert "login"[0] != "password"[0]; }
    var login := Trim(LoginValue(Source(raw)).s);
    assert m["login"] == JStr(login);
    assert LoginValue(JObj(m)) == JStr(login);
    TrimIdempotent(LoginValue(Source(raw)).s);
    assert PasswordOr(JObj(m), login) == m["password"];
    MergeAbsorbed(DefaultUser, m, JStr(login), m["password"]);
  }

  /**
   * Idempotence fails for a blank login: the first pass trims it to `''`,
   * the second finds `''` falsy and takes the default login, while the
   * password stays the `''` the first pass derived.
   */
  lemma BlankLoginNotIdempotent(raw: Json)
    requires Normalize(raw).Ok? && Normalize(raw).value["login"] == JStr("")
    ensures var again := Normalize(JObj(Normalize(raw).value));
      again.Ok? && again.value["login"] == JStr(DefaultLogin) && again != Normalize(raw)
  {
    var m := Normalize(raw).value;
    assert "login" != "password" by { assert "login"[0] != "password"[0]; }
    assert LoginValue(JObj(m)) == JStr(DefaultLogin);
    DefaultLoginTrimmed();
  }

  /** A login of spaces only is such a case. */
  lemma SpacesLoginIsBlank()
    ensures var raw := JObj(map["login" := JStr("  ")]);
      Normalize(raw).Ok? && Normalize(raw).value["login"] == JStr("")
  {
    assert AllSpace("  ");
    TrimEmptyIff("  ");
  }

  /** The browser's localStorage: string values under string keys. */
  class LocalStorage {
    var items: map<string, string>

    constructor(items: map<string, string>)
      ensures this.items == items
    {
      this.items := items;
    }

    /** `getItem(key)`: the value, or null for a missing key. */
    method GetItem(key: string) returns (value: Option<string>)
      ensures value.Some? <==> key in items
      ensures value.Some? ==> value.value == items[key]
    {
      value := if key in items then Some(items[key]) else None;
    }

    method SetItem(key: string, value: string)
      modifies this
      ensures items == old(items)[key := value]
    {
      items := items[key := value];
    }

    method RemoveItem(key: string)
      modifies this
      ensures items == old(items) - {key}
    {
      items := items - {key};
    }
  }

  /** What a read returns and what the storage holds afterwards. */
  datatype ReadOutcome = ReadOutcome(record: Record, items: map<string, string>)

  /**
   * `readUserRecord()` on the storage's items: a missing or empty entry is
   * the default; an entry that does not parse, or whose value normalisation
   * throws on, is removed and the default returned; otherwise the parsed
   * value, normalised.
   */
  function Read(items: map<string, string>, parse: string -> Option<Json>): (o: ReadOutcome)
    ensures o.items == items || o.items == items - {UserRecordKey}
    ensures o.items != items ==> o.record == DefaultRecord
    ensures UserRecordKey !in items || items[UserRecordKey] == [] ==> o == ReadOutcome(DefaultRecord, items)
    ensures UserRecordKey in items && items[UserRecordKey] != [] ==>
      match parse(items[UserRecordKey])
      case None => o == ReadOutcome(DefaultRecord, items - {UserRecordKey})
      case Some(v) => o == match Normalize(v)
        case Ok(record) => ReadOutcome(record, items)
        case Err(_) => ReadOutcome(DefaultRecord, items - {UserRecordKey})
  {
    if UserRecordKey !in items || items[UserRecordKey] == [] then ReadOutcome(DefaultRecord, items)
    else match parse(items[UserRecordKey])
      case None => ReadOutcome(DefaultRecord, items - {UserRecordKey})
      case Some(v) =>
        match Normalize(v)
        case Err(_) => ReadOutcome(DefaultRecord, items - {UserRecordKey})
        case Ok(record) => ReadOutcome(record, items)
  }

  /** `readUserRecord()`; `null` storage stands for a page without `window`. */
  method ReadUserRecord(storage: LocalStorage?, parse: string -> Option<Json>) returns (record: Record)
    modifies storage
    ensures storage == null ==> record == DefaultRecord
    ensures storage != null ==> ReadOutcome(record, storage.items) == Read(old(storage.items), parse)
  {
    if storage == null {
      return DefaultRecord;
    }
    var stored := storage.GetItem(UserRecordKey);
    if stored.None? || stored.value == [] {
      return DefaultRecord;
    }
    var parsed := parse(stored.value);
    if parsed.None? {
      // JSON.parse threw a SyntaxError
      storage.RemoveItem(UserRecordKey);
      return DefaultRecord;
    }
    var normalized := Normalize(parsed.value);
    if normalized.Err? {
      storage.RemoveItem(UserRecordKey);
      return DefaultRecord;
    }
    record := normalized.value;
  }

  /** `{ ...record, password: record.password ?? null }`. */
  function Payload(record: Record): (payload: Record)
    ensures payload.Keys == record.Keys + {"password"}
    ensures forall k :: k in record && k != "password" ==> payload[k] == record[k]
    ensures payload["password"] == if "password" in record then record["password"] else JNull
  {
    record["password" := if "password" in record then record["password"] else JNull]
  }

  /** The storage's items after `persistUserRecord(record)`. */
  function Persisted(items: map<string, string>, record: Record, stringify: Json -> string): (r: map<string, string>)
    ensures r.Keys == items.Keys + {UserRecordKey}
    ensures forall k :: k in items && k != UserRecordKey ==> r[k] == items[k]
    ensures r[UserRecordKey] == stringify(JObj(Payload(record)))
  {
    items[UserRecordKey := stringify(JObj(Payload(record)))]
  }

  /** `persistUserRecord(record)`. */
  method PersistUserRecord(storage: LocalStorage?, record: Record, stringify: Json -> string)
    modifies storage
    ensures storage != null ==> storage.items == Persisted(old(storage.items), record, stringify)
  {
    if storage == null {
      return;
    }
    storage.SetItem(UserRecordKey, stringify(JObj(Payload(record))));
  }

  /** Writing the explicit null password changes nothing normalisation sees. */
  lemma PayloadNormalizesAlike(record: Record)
    ensures Normalize(JObj(Payload(record))) == Normalize(JObj(record))
  {
    var p := Payload(record);
    assert "login" != "password" by { assert "login"[0] != "password"[0]; }
    assert LoginValue(JObj(p)) == LoginValue(JObj(record));
    var login := LoginValue(JObj(record));
    if login.JStr? {
      var t := Trim(login.s);
      var password := PasswordOr(JObj(record), t);
      assert PasswordOr(JObj(p), t) == password;
      MergeOverwritten(DefaultUser, p, record, map["login" := JStr(t), "password" := password]);
    }
  }

  /**
   * Persist, then read: when the JSON text of the payload parses back to the
   * payload, the read returns `normalizeUserRecord(record)`, or the default
   * (with the entry removed) when that normalisation throws.
   */
  lemma PersistThenRead(items: map<string, string>, record: Record,
                        parse: string -> Option<Json>, stringify: Json -> string)
    requires var text := stringify(JObj(Payload(record)));
      text != [] && parse(text) == Some(JObj(Payload(record)))
    ensures var o := Read(Persisted(items, record, stringify), parse);
      o.record == match Normalize(JObj(record)) case Ok(r) => r case Err(_) => DefaultRecord
  {
    PayloadNormalizesAlike(record);
  }
}
