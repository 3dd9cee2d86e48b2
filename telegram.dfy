/**
 * Telegram Mini App authentication: validating the signed `initData` query string
 * against the bot token, and looking up or enrolling the user it names.
 */
module Telegram {
  import opened Wrappers
  import opened Text
  import opened Json

  /** How a request fails: an `HTTPException` with its status and detail, or an exception
      raised by the library code, by name. */
  datatype Failure = Http(status: int, detail: string) | Raised(name: string)

  const NoToken := Http(500, "Bot token not configured (env TOKEN)")
  const MissingHash := Http(401, "Missing hash")
  const BadSignature := Http(401, "Bad signature")
  const NoUser := Http(401, "No user")
  const NoInitData := Http(401, "No init data")

  // ---------------------------------------------------------------- dictionaries

  /** A Python `dict` of strings to strings, as its items in insertion order. */
  type Dict = seq<(string, string)>

  predicate NoRepeat(s: seq<string>) {
    forall a, b :: 0 <= a < b < |s| ==> s[a] != s[b]
  }

  lemma NoRepeatCons(x: string, s: seq<string>)
    ensures NoRepeat([x] + s) <==> x !in s && NoRepeat(s)
  {
    var t := [x] + s;
    assert forall b :: 0 <= b < |s| ==> t[b + 1] == s[b];
    if NoRepeat(t) {
      forall b | 0 <= b < |s| ensures s[b] != x {
        assert t[0] != t[b + 1];
      }
      forall a, b | 0 <= a < b < |s| ensures s[a] != s[b] {
        assert t[a + 1] != t[b + 1];
      }
    }
    if x !in s && NoRepeat(s) {
      forall a, b | 0 <= a < b < |t| ensures t[a] != t[b] {
        if a > 0 {
          assert s[a - 1] != s[b - 1];
        } else {
          assert s[b - 1] in s;
        }
      }
    }
  }

  /** No key occurs twice. */
  predicate KeysDistinct(d: Dict) {
    NoRepeat(Keys(d))
  }

  function Keys(d: Dict): (r: seq<string>)
    ensures |r| == |d| && forall i :: 0 <= i < |d| ==> r[i] == d[i].0
  {
    if d == [] then [] else [d[0].0] + Keys(d[1..])
  }

  /** `d.get(k)`. */
  function Get(d: Dict, k: string): (r: Option<string>)
    ensures r.Some? <==> k in Keys(d)
  {
    if d == [] then None else if d[0].0 == k then Some(d[0].1) else Get(d[1..], k)
  }

  /** `d[k] = v`: an existing key keeps its place, a new one goes last. */
  function Put(d: Dict, k: string, v: string): (r: Dict)
    ensures forall x :: Get(r, x) == if x == k then Some(v) else Get(d, x)
  {
    if d == [] then [(k, v)]
    else if d[0].0 == k then [(k, v)] + d[1..]
    else [d[0]] + Put(d[1..], k, v)
  }

  lemma {:induction false} PutKeys(d: Dict, k: string, v: string)
    ensures forall x :: x in Keys(Put(d, k, v)) <==> x == k || x in Keys(d)
    ensures KeysDistinct(d) ==> KeysDistinct(Put(d, k, v))
  {
    if d != [] {
      assert Keys(d) == [d[0].0] + Keys(d[1..]);
      NoRepeatCons(d[0].0, Keys(d[1..]));
      if d[0].0 != k {
        PutKeys(d[1..], k, v);
        var rest := Put(d[1..], k, v);
        assert Keys(Put(d, k, v)) == [d[0].0] + Keys(rest);
        NoRepeatCons(d[0].0, Keys(rest));
      } else {
        assert Keys(Put(d, k, v)) == [k] + Keys(d[1..]);
      }
    }
  }

  /** The items of `d` without key `k`. */
  function Remove(d: Dict, k: string): (r: Dict)
    ensures forall x :: Get(r, x) == if x == k then None else Get(d, x)
  {
    if d == [] then []
    else if d[0].0 == k then Remove(d[1..], k)
    else [d[0]] + Remove(d[1..], k)
  }

  lemma {:induction false} RemoveKeys(d: Dict, k: string)
    ensures forall x :: x in Keys(Remove(d, k)) ==> x in Keys(d)
    ensures KeysDistinct(d) ==> KeysDistinct(Remove(d, k))
  {
    if d != [] {
      assert Keys(d) == [d[0].0] + Keys(d[1..]);
      NoRepeatCons(d[0].0, Keys(d[1..]));
      RemoveKeys(d[1..], k);
      var rest := Remove(d[1..], k);
      if d[0].0 != k {
        assert Keys(Remove(d, k)) == [d[0].0] + Keys(rest);
        NoRepeatCons(d[0].0, Keys(rest));
      }
    }
  }

  /** `d.pop(k, None)`: the value, and the dictionary without the key. */
  function Pop(d: Dict, k: string): (Option<string>, Dict) {
    (Get(d, k), Remove(d, k))
  }

  /** `dict(pairs)`: the pairs inserted left to right. */
  function DictOf(pairs: seq<(string, string)>): (r: Dict)
    ensures KeysDistinct(r)
  {
    if pairs == [] then []
    else
      var init := DictOf(pairs[..|pairs| - 1]);
      PutKeys(init, pairs[|pairs| - 1].0, pairs[|pairs| - 1].1);
      Put(init, pairs[|pairs| - 1].0, pairs[|pairs| - 1].1)
  }

  /** The value of the last pair with key `k`. */
  function LastValue(pairs: seq<(string, string)>, k: string): Option<string> {
    if pairs == [] then None
    else if pairs[|pairs| - 1].0 == k then Some(pairs[|pairs| - 1].1)
    else LastValue(pairs[..|pairs| - 1], k)
  }

  /** A repeated query parameter keeps its last value. */
  lemma {:induction false} DictOfLastWins(pairs: seq<(string, string)>, k: string)
    ensures Get(DictOf(pairs), k) == LastValue(pairs, k)
  {
    if pairs != [] {
      DictOfLastWins(pairs[..|pairs| - 1], k);
    }
  }

  // ---------------------------------------------------------------- sorting keys

  /** Ascending in Python's string order (not necessarily strictly: distinctness is stated apart). */
  predicate Sorted(s: seq<string>) {
    forall a, b :: 0 <= a < b < |s| ==> StrLe(s[a], s[b])
  }

  function Insert(k: string, s: seq<string>): (r: seq<string>)
    ensures |r| == |s| + 1
    ensures forall x :: x in r <==> x == k || x in s
  {
    if s == [] then [k]
    else if StrLe(k, s[0]) then [k] + s
    else [s[0]] + Insert(k, s[1..])
  }

  /** `sorted(keys)`. */
  function SortKeys(s: seq<string>): (r: seq<string>)
    ensures |r| == |s|
    ensures forall x :: x in r <==> x in s
  {
    if s == [] then []
    else
      var rest := SortKeys(s[1..]);
      assert forall x :: x in s <==> x == s[0] || x in s[1..];
      Insert(s[0], rest)
  }

  lemma InsertSorted(k: string, s: seq<string>)
    requires Sorted(s)
    ensures Sorted(Insert(k, s))
    ensures k !in s && NoRepeat(s) ==> NoRepeat(Insert(k, s))
  {
    InsertOrdered(k, s);
    if k !in s && NoRepeat(s) {
      InsertDistinct(k, s);
    }
  }

  lemma {:induction false} InsertOrdered(k: string, s: seq<string>)
    requires Sorted(s)
    ensures Sorted(Insert(k, s))
  {
    if s != [] {
      if StrLe(k, s[0]) {
        forall b | 0 <= b < |s| ensures StrLe(k, s[b]) {
          if b > 0 {
            StrLeTransitive(k, s[0], s[b]);
          }
        }
        assert Insert(k, s) == [k] + s;
        SortedCons(k, s);
      } else {
        StrLeTotal(k, s[0]);
        var t := s[1..];
        assert Sorted(t) by {
          forall a, b | 0 <= a < b < |t| ensures StrLe(t[a], t[b]) {
            assert t[a] == s[a + 1] && t[b] == s[b + 1];
          }
        }
        InsertOrdered(k, t);
        var rest := Insert(k, t);
        forall b | 0 <= b < |rest| ensures StrLe(s[0], rest[b]) {
          assert rest[b] in rest;
          if rest[b] != k {
            var c :| 0 <= c < |t| && t[c] == rest[b];
            assert s[c + 1] == rest[b];
          }
        }
        assert Insert(k, s) == [s[0]] + rest;
        SortedCons(s[0], rest);
      }
    }
  }

  lemma {:induction false} InsertDistinct(k: string, s: seq<string>)
    requires k !in s && NoRepeat(s)
    ensures NoRepeat(Insert(k, s))
  {
    if s != [] {
      NoRepeatCons(s[0], s[1..]);
      assert s == [s[0]] + s[1..];
      if StrLe(k, s[0]) {
        assert Insert(k, s) == [k] + s;
        NoRepeatCons(k, s);
      } else {
        InsertDistinct(k, s[1..]);
        assert Insert(k, s) == [s[0]] + Insert(k, s[1..]);
        NoRepeatCons(s[0], Insert(k, s[1..]));
      }
    }
  }

  lemma SortedCons(x: string, s: seq<string>)
    requires Sorted(s) && forall b :: 0 <= b < |s| ==> StrLe(x, s[b])
    ensures Sorted([x] + s)
  {
    var r := [x] + s;
    forall a, b | 0 <= a < b < |r| ensures StrLe(r[a], r[b]) {
      assert r[b] == s[b - 1];
      if a > 0 {
        assert r[a] == s[a - 1];
      }
    }
  }

  /** The keys come out ascending, each once. */
  lemma {:induction false} SortKeysSpec(s: seq<string>)
    requires NoRepeat(s)
    ensures Sorted(SortKeys(s)) && NoRepeat(SortKeys(s))
  {
    if s != [] {
      assert NoRepeat(s[1..]);
      SortKeysSpec(s[1..]);
      assert s[0] !in s[1..];
      InsertSorted(s[0], SortKeys(s[1..]));
    }
  }

  /** Two ascending lists without repeats that hold the same strings are the same list. */
  lemma {:induction false} SortedUnique(a: seq<string>, b: seq<string>)
    requires Sorted(a) && NoRepeat(a) && Sorted(b) && NoRepeat(b)
    requires forall x :: x in a <==> x in b
    ensures a == b
  {
    if a != [] {
      assert a[0] in b;
      assert b != [];
      assert b[0] in a;
      var i :| 0 <= i < |a| && a[i] == b[0];
      var j :| 0 <= j < |b| && b[j] == a[0];
      StrLeTotal(a[0], a[0]);
      assert StrLe(a[0], b[0]) by {
        if i > 0 {
          assert StrLe(a[0], a[i]);
        }
      }
      assert StrLe(b[0], a[0]) by {
        if j > 0 {
          assert StrLe(b[0], b[j]);
        }
      }
      StrLeAntisymmetric(a[0], b[0]);
      forall x ensures x in a[1..] <==> x in b[1..] {
        if x in a[1..] {
          var c :| 0 <= c < |a[1..]| && a[1..][c] == x;
          assert a[c + 1] == x && x != a[0];
          assert x in b;
        }
        if x in b[1..] {
          var c :| 0 <= c < |b[1..]| && b[1..][c] == x;
          assert b[c + 1] == x && x != b[0];
          assert x in a;
        }
      }
      SortedUnique(a[1..], b[1..]);
      assert a == [a[0]] + a[1..] && b == [b[0]] + b[1..];
    } else if b != [] {
      FirstIn(b);
    }
  }

  lemma FirstIn(s: seq<string>)
    requires s != []
    ensures s[0] in s
  {
  }

  // ---------------------------------------------------------------- the data-check string

  /** `"\n".join(lines)`. */
  function JoinLines(lines: seq<string>): string {
    if lines == [] then ""
    else if |lines| == 1 then lines[0]
    else JoinLines(lines[..|lines| - 1]) + "\n" + lines[|lines| - 1]
  }

  /** The `key=value` lines of `d` for the keys `ks`. */
  function CheckLines(d: Dict, ks: seq<string>): (r: seq<string>)
    ensures |r| == |ks|
    ensures forall i :: 0 <= i < |ks| ==> r[i] == ks[i] + "=" + Get(d, ks[i]).GetOr("")
  {
    if ks == [] then [] else [ks[0] + "=" + Get(d, ks[0]).GetOr("")] + CheckLines(d, ks[1..])
  }

  /** The data-check string: one `key=value` line per key, in sorted key order. */
  function DataCheckString(d: Dict): string {
    JoinLines(CheckLines(d, SortKeys(Keys(d))))
  }

  /** The string signed depends only on which keys carry which values, not on the order of the
      query parameters. */
  lemma DataCheckOrderFree(d1: Dict, d2: Dict)
    requires KeysDistinct(d1) && KeysDistinct(d2)
    requires forall k :: Get(d1, k) == Get(d2, k)
    ensures DataCheckString(d1) == DataCheckString(d2)
  {
    var s1, s2 := SortKeys(Keys(d1)), SortKeys(Keys(d2));
    SortKeysSpec(Keys(d1));
    SortKeysSpec(Keys(d2));
    assert forall x :: x in s1 <==> x in s2 by {
      forall x ensures x in s1 <==> x in s2 {
        assert (x in Keys(d1)) == Get(d1, x).Some? == Get(d2, x).Some? == (x in Keys(d2));
      }
    }
    SortedUnique(s1, s2);
    assert CheckLines(d1, s1) == CheckLines(d2, s2);
  }

  /** The lines of the data-check string are the dictionary's items, keys ascending and each
      once. */
  lemma DataCheckLines(d: Dict)
    requires KeysDistinct(d)
    ensures var ks := SortKeys(Keys(d));
            Sorted(ks) && NoRepeat(ks) && (forall k :: k in ks <==> Get(d, k).Some?) &&
            DataCheckString(d) == JoinLines(CheckLines(d, ks))
  {
    SortKeysSpec(Keys(d));
  }

  // ---------------------------------------------------------------- `_check_telegram_init_data`

  predicate IsAscii(s: string) {
    forall i :: 0 <= i < |s| ==> s[i] as int < 128
  }

  /** The query parameters that take part in the signature: all but `hash` and `signature`. */
  function Signed(parsed: Dict): (r: Dict)
    requires KeysDistinct(parsed)
    ensures KeysDistinct(r)
    ensures forall k :: Get(r, k) == if k == "hash" || k == "signature" then None else Get(parsed, k)
  {
    RemoveKeys(parsed, "hash");
    RemoveKeys(Remove(parsed, "hash"), "signature");
    Pop(Pop(parsed, "hash").1, "signature").1
  }

  /** `_check_telegram_init_data(init_data_raw, bot_token)`. `parseQsl` stands for
      `urllib.parse.parse_qsl(..., keep_blank_values=True)`, `sign(token, text)` for the hex
      HMAC-SHA256 of `text` under the key HMAC-SHA256("WebAppData", token), and `loads` for
      `json.loads` (`None` when it raises). An unset or blank token is a server error. */
  function CheckInitData(raw: string, botToken: Option<string>, parseQsl: string -> seq<(string, string)>,
                         sign: (string, string) -> string, loads: string -> Option<Json>): (r: Result<Json, Failure>)
    ensures r == Err(NoToken) <==> PyStrip(botToken.GetOr("")) == []
  {
    var token := PyStrip(botToken.GetOr(""));
    if token == [] then Err(NoToken)
    else
      var r := Verify(DictOf(parseQsl(raw)), token, sign, loads);
      VerifyStatus(DictOf(parseQsl(raw)), token, sign, loads);
      r
  }

  /** The checks after the token, on the parsed parameters: comparing a non-ASCII received hash
      raises. */
  function Verify(parsed: Dict, token: string, sign: (string, string) -> string, loads: string -> Option<Json>): Result<Json, Failure> {
    var (received, withoutHash) := Pop(parsed, "hash");
    if received.None? || received.value == [] then Err(MissingHash)
    else
      var rest := Pop(withoutHash, "signature").1;
      Decide(received.value, sign(token, DataCheckString(rest)), Get(rest, "user"), loads)
  }

  /** The signature comparison and the `user` parameter. */
  function Decide(received: string, computed: string, userJson: Option<string>, loads: string -> Option<Json>): Result<Json, Failure> {
    if !IsAscii(computed) || !IsAscii(received) then Err(Raised("TypeError"))
    else if computed != received then Err(BadSignature)
    else if userJson.None? || userJson.value == [] then Err(NoUser)
    else
      match loads(userJson.value) {
        case None => Err(Raised("JSONDecodeError"))
        case Some(user) => Ok(user)
      }
  }

  lemma VerifyStatus(parsed: Dict, token: string, sign: (string, string) -> string, loads: string -> Option<Json>)
    ensures Verify(parsed, token, sign, loads) != Err(NoToken)
  {
  }

  /** The parameters are accepted exactly when a non-empty ASCII `hash` equals the signature of
      the other parameters except `signature`, and a non-empty `user` decodes; the result is the
      decoded user. Each rejection has its own error, checked in this order: no hash, a
      non-ASCII hash or signature, a different signature, no user, a user that does not decode. */
  lemma VerifySpec(parsed: Dict, token: string, sign: (string, string) -> string, loads: string -> Option<Json>)
    requires KeysDistinct(parsed)
    ensures var received, user, r := Get(parsed, "hash"), Get(parsed, "user"), Verify(parsed, token, sign, loads);
            var computed := sign(token, DataCheckString(Signed(parsed)));
            var present := received.Some? && received.value != [];
            var comparable := present && IsAscii(received.value) && IsAscii(computed);
            var signed := comparable && computed == received.value;
            var hasUser := signed && user.Some? && user.value != [];
            (!present ==> r == Err(MissingHash)) &&
            (present && !comparable ==> r == Err(Raised("TypeError"))) &&
            (comparable && computed != received.value ==> r == Err(BadSignature)) &&
            (signed && (user.None? || user.value == []) ==> r == Err(NoUser)) &&
            (hasUser && loads(user.value).None? ==> r == Err(Raised("JSONDecodeError"))) &&
            (r.Ok? <==>
               received.Some? && received.value != [] && IsAscii(received.value) && IsAscii(computed) &&
               computed == received.value && user.Some? && user.value != [] && loads(user.value).Some?) &&
            (r.Ok? ==> loads(user.value) == Some(r.value))
  {
    var rest := Signed(parsed);
    assert Get(rest, "user") == Get(parsed, "user");
  }

  /** The verdict depends only on which keys carry which values. */
  lemma VerifyOrderFree(p1: Dict, p2: Dict, token: string, sign: (string, string) -> string, loads: string -> Option<Json>)
    requires KeysDistinct(p1) && KeysDistinct(p2)
    requires forall k :: Get(p1, k) == Get(p2, k)
    ensures Verify(p1, token, sign, loads) == Verify(p2, token, sign, loads)
  {
    var r1, r2 := Signed(p1), Signed(p2);
    assert forall k :: Get(r1, k) == Get(r2, k);
    DataCheckOrderFree(r1, r2);
    assert Get(p1, "hash") == Get(p2, "hash");
    assert Get(r1, "user") == Get(r2, "user");
  }

  /** Reordering the query parameters, or repeating one with its final value unchanged, does not
      change the verdict. */
  lemma CheckInitDataOrderFree(raw1: string, raw2: string, botToken: Option<string>,
                               parseQsl: string -> seq<(string, string)>,
                               sign: (string, string) -> string, loads: string -> Option<Json>)
    requires forall k :: LastValue(parseQsl(raw1), k) == LastValue(parseQsl(raw2), k)
    ensures CheckInitData(raw1, botToken, parseQsl, sign, loads) == CheckInitData(raw2, botToken, parseQsl, sign, loads)
  {
    var p1, p2 := DictOf(parseQsl(raw1)), DictOf(parseQsl(raw2));
    forall k ensures Get(p1, k) == Get(p2, k) {
      DictOfLastWins(parseQsl(raw1), k);
      DictOfLastWins(parseQsl(raw2), k);
    }
    VerifyOrderFree(p1, p2, PyStrip(botToken.GetOr("")), sign, loads);
  }

  // ---------------------------------------------------------------- `get_current_user`

  /** A row of the `users` table. */
  datatype UserRow = UserRow(userId: int, telegramId: Json, username: Json)

  /** `a or b` where `a` is a `dict.get` result. */
  function Or(a: Option<Json>, b: Json): (r: Json)
    ensures a.Some? && PyTruthy(a.value) ==> r == a.value
    ensures !(a.Some? && PyTruthy(a.value)) ==> r == b
  {
    if a.Some? && PyTruthy(a.value) then a.value else b
  }

  /** `user_dict["id"]` and `user_dict.get("username") or user_dict.get("first_name") or "user"`. */
  function Identify(user: Json): Result<(Json, Json), Failure> {
    match user {
      case JObject(f) =>
        if "id" !in f then Err(Raised("KeyError"))
        else Ok((f["id"], Or(Field(user, "username"), Or(Field(user, "first_name"), JString("user")))))
      case _ => Err(Raised("TypeError"))
    }
  }

  /** The name a user is enrolled under: a non-empty username, else a non-empty first name,
      else `"user"`. */
  lemma IdentifyName(user: Json)
    requires user.JObject? && "id" in user.fields
    ensures var name := Identify(user).value.1;
            Identify(user).value.0 == user.fields["id"] &&
            PyTruthy(name) &&
            (name == JString("user") || ("username" in user.fields && name == user.fields["username"]) ||
             ("first_name" in user.fields && name == user.fields["first_name"])) &&
            ("username" in user.fields && PyTruthy(user.fields["username"]) ==> name == user.fields["username"])
  {
  }

  /** The header check, the init-data check and the identity, before the database. */
  function Authenticate(xInitData: Option<string>, botToken: string, parseQsl: string -> seq<(string, string)>,
                        sign: (string, string) -> string, loads: string -> Option<Json>): Result<(Json, Json), Failure>
  {
    if xInitData.None? || xInitData.value == [] then Err(NoInitData)
    else
      match CheckInitData(xInitData.value, Some(botToken), parseQsl, sign, loads) {
        case Err(e) => Err(e)
        case Ok(user) => Identify(user)
      }
  }

  /** A request without the `X-Telegram-Init-Data` header, or with an empty one, is refused
      before any signature is computed, whatever the token and the query parser. */
  lemma AuthenticateNeedsHeader(botToken: string, parseQsl: string -> seq<(string, string)>,
                                sign: (string, string) -> string, loads: string -> Option<Json>)
    ensures Authenticate(None, botToken, parseQsl, sign, loads) == Err(NoInitData)
    ensures Authenticate(Some(""), botToken, parseQsl, sign, loads) == Err(NoInitData)
  {
  }

  /** The first row with the Telegram id, as `filter_by(...).first()` finds it. */
  function FindUser(rows: seq<UserRow>, tgId: Json): (r: Option<UserRow>)
    ensures r.Some? ==> r.value in rows && r.value.telegramId == tgId
    ensures r.None? ==> forall i :: 0 <= i < |rows| ==> rows[i].telegramId != tgId
  {
    if rows == [] then None else if rows[0].telegramId == tgId then Some(rows[0]) else FindUser(rows[1..], tgId)
  }

  /** `users` holds one row per Telegram id, user ids ascend and stay below the next one. */
  predicate TableValid(rows: seq<UserRow>, nextId: int) {
    (forall a, b :: 0 <= a < b < |rows| ==> rows[a].telegramId != rows[b].telegramId && rows[a].userId < rows[b].userId) &&
    (forall a :: 0 <= a < |rows| ==> rows[a].userId < nextId)
  }

  /** The user with the Telegram id, enrolled first when missing: the user and the new table. */
  function Enrol(rows: seq<UserRow>, nextId: int, tgId: Json, name: Json): (UserRow, seq<UserRow>, int) {
    match FindUser(rows, tgId) {
      case Some(u) => (u, rows, nextId)
      case None => (UserRow(nextId, tgId, name), rows + [UserRow(nextId, tgId, name)], nextId + 1)
    }
  }

  /** Enrolling keeps the table valid, returns the one row for the id, and a second enrolment
      of the same id finds that row and changes nothing. */
  lemma EnrolSpec(rows: seq<UserRow>, nextId: int, tgId: Json, name: Json)
    requires TableValid(rows, nextId)
    ensures var (u, rows2, next2) := Enrol(rows, nextId, tgId, name);
            TableValid(rows2, next2) && u.telegramId == tgId && FindUser(rows2, tgId) == Some(u) &&
            (FindUser(rows, tgId).None? ==> u.userId == nextId && u.username == name && rows2 == rows + [u]) &&
            (FindUser(rows, tgId).Some? ==> rows2 == rows && next2 == nextId) &&
            Enrol(rows2, next2, tgId, name) == (u, rows2, next2)
  {
    var (u, rows2, next2) := Enrol(rows, nextId, tgId, name);
    if FindUser(rows, tgId).None? {
      FindAppended(rows, u);
    }
  }

  lemma {:induction false} FindAppended(rows: seq<UserRow>, u: UserRow)
    requires FindUser(rows, u.telegramId).None?
    ensures FindUser(rows + [u], u.telegramId) == Some(u)
  {
    if rows != [] {
      assert (rows + [u])[1..] == rows[1..] + [u];
      FindAppended(rows[1..], u);
    }
  }

  /** The `users` table. */
  class Users {
    var rows: seq<UserRow>
    var nextId: int

    predicate Valid()
      reads this
    {
      TableValid(rows, nextId)
    }

    constructor ()
      ensures rows == [] && nextId == 1 && Valid()
    {
      rows := [];
      nextId := 1;
    }

    /** `get_current_user(x_init_data, db)` with the environment's `TOKEN`: a failed check leaves
        the table alone; otherwise the user with the init data's Telegram id, enrolled when new. */
    method GetCurrentUser(xInitData: Option<string>, botToken: string, parseQsl: string -> seq<(string, string)>,
                          sign: (string, string) -> string, loads: string -> Option<Json>)
      returns (r: Result<UserRow, Failure>)
      requires Valid()
      modifies this
      ensures Valid()
      ensures var auth := Authenticate(xInitData, botToken, parseQsl, sign, loads);
              (auth.Err? ==> r == Err(auth.error) && rows == old(rows) && nextId == old(nextId)) &&
              (auth.Ok? ==> r.Ok? && (r.value, rows, nextId) == Enrol(old(rows), old(nextId), auth.value.0, auth.value.1) &&
                            r.value.telegramId == auth.value.0 && FindUser(rows, auth.value.0) == Some(r.value))
    {
      var auth := Authenticate(xInitData, botToken, parseQsl, sign, loads);
      if auth.Err? {
        return Err(auth.error);
      }
      var user := FindOrCreate(auth.value.0, auth.value.1);
      r := Ok(user);
    }

    /** The query for the Telegram id, and the insert and commit when there is no such row. */
    method FindOrCreate(tgId: Json, name: Json) returns (user: UserRow)
      requires Valid()
      modifies this
      ensures Valid()
      ensures (user, rows, nextId) == Enrol(old(rows), old(nextId), tgId, name)
      ensures user.telegramId == tgId && FindUser(rows, tgId) == Some(user)
    {
      EnrolSpec(rows, nextId, tgId, name);
      var found := FindUser(rows, tgId);
      if found.Some? {
        return found.value;
      }
      user := UserRow(nextId, tgId, name);
      rows := rows + [user];
      nextId := nextId + 1;
    }
  }
}
