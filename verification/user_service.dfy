/** `UserService` of src/services/UserService.js: the user documents of the
    `users` collection and the operations that create them and edit their
    array fields. The collection is a map from user id to document; a read is
    a lookup and a write replaces the stored document. The current time and
    the device's time zone name are parameters. */
module UserService {
  import opened Wrappers
  import opened JsString

  /** A stored JSON value. Numbers are integers: floating point is not part
      of this model. */
  datatype Value =
    | Null
    | Bool(b: bool)
    | Num(n: int)
    | Str(s: string)
    | Arr(items: seq<Value>)
    | Obj(fields: map<string, Value>)

  /** A user document; an `undefined` field is an absent key. */
  type Doc = map<string, Value>

  /** The `users` collection. */
  type Store = map<string, Doc>

  /** `doc[name]`, `None` for `undefined`. */
  function Lookup(doc: Doc, name: string): Option<Value> {
    if name in doc then Some(doc[name]) else None
  }

  /** JavaScript truthiness of a value that may be `undefined`. */
  predicate IsTruthy(v: Option<Value>) {
    match v
    case None => false
    case Some(Null) => false
    case Some(Bool(b)) => b
    case Some(Num(n)) => n != 0
    case Some(Str(s)) => s != ""
    case Some(_) => true
  }

  /** `stored === given` for a value read from the store and one the caller
      passes in: primitives compare by value, while an array or object read
      from the store is a fresh object, identical to nothing passed in. */
  predicate StrictEquals(stored: Value, given: Value): (r: bool)
    ensures r ==> stored == given
    ensures !given.Arr? && !given.Obj? ==> (r <==> stored == given)
    ensures stored.Arr? || stored.Obj? ==> !r
  {
    match stored
    case Null => given == Null
    case Bool(b) => given == Bool(b)
    case Num(n) => given == Num(n)
    case Str(s) => given == Str(s)
    case _ => false
  }

  /** What the operations throw. */
  datatype UserError =
    | NoDocument   // `userDoc.data()` is `undefined`; reading a field of it throws a TypeError
    | NotIterable  // spreading a value that is not iterable throws a TypeError
    | NotAnArray   // `filter` is not a function of a non-array value
    | NullItem     // `item[matchField]` on a `null` item throws a TypeError
    | NotFound     // `update` of a missing document is rejected

  /** A write: the collection afterwards and the document `get` then reads. */
  datatype Written = Written(store: Store, user: Doc)

  /* ---------------- updateUser ---------------- */

  /** `updateUser`: every supplied field is written over the stored
      document, and `updatedAt` becomes `now`, whatever `updates` says. */
  function UpdateUser(store: Store, userId: string, updates: Doc, now: string): (r: Result<Written, UserError>)
    ensures r.Err? <==> userId !in store
    ensures r.Err? ==> r.error == NotFound
    ensures r.Ok? ==> r.value.store == store[userId := r.value.user]
    ensures r.Ok? ==> r.value.user.Keys == store[userId].Keys + updates.Keys + {"updatedAt"}
    ensures r.Ok? ==> r.value.user["updatedAt"] == Str(now)
    ensures r.Ok? ==> forall k :: k in updates && k != "updatedAt" ==> r.value.user[k] == updates[k]
    ensures r.Ok? ==> forall k :: k in store[userId] && k !in updates && k != "updatedAt" ==>
              r.value.user[k] == store[userId][k]
  {
    if userId !in store then Err(NotFound)
    else
      var user := store[userId] + updates + map["updatedAt" := Str(now)];
      Ok(Written(store[userId := user], user))
  }

  /** Writing the same update twice at the same time is writing it once. */
  lemma UpdateTwice(store: Store, userId: string, updates: Doc, now: string)
    requires UpdateUser(store, userId, updates, now).Ok?
    ensures var w := UpdateUser(store, userId, updates, now).value;
            UpdateUser(w.store, userId, updates, now) == Ok(w)
  {
    var w := UpdateUser(store, userId, updates, now).value;
    var w2 := UpdateUser(w.store, userId, updates, now).value;
    assert w2.user.Keys == w.user.Keys;
    forall k | k in w.user
      ensures w2.user[k] == w.user[k]
    {
    }
    assert w2.user == w.user;
    assert w.store[userId := w.user] == w.store;
  }

  /* ---------------- addToUserArray ---------------- */

  /** The characters of `s`, each as a one-character string. */
  function Chars(s: string): (r: seq<Value>)
    ensures |r| == |s|
    ensures forall i :: 0 <= i < |s| ==> r[i] == Str([s[i]])
  {
    if |s| == 0 then [] else Chars(s[..|s| - 1]) + [Str([s[|s| - 1]])]
  }

  /** `[...(v || [])]`: nothing for a falsy value, the items of an array, the
      characters of a string as one-character strings, and a TypeError for
      anything else. */
  function Spread(v: Option<Value>): (r: Result<seq<Value>, UserError>)
    ensures !IsTruthy(v) ==> r == Ok([])
    ensures IsTruthy(v) && v.value.Arr? ==> r == Ok(v.value.items)
    ensures IsTruthy(v) && v.value.Str? ==> r == Ok(Chars(v.value.s))
    ensures r.Err? <==> IsTruthy(v) && !v.value.Arr? && !v.value.Str?
  {
    if !IsTruthy(v) then Ok([])
    else match v.value
      case Arr(items) => Ok(items)
      case Str(s) => Ok(Chars(s))
      case _ => Err(NotIterable)
  }

  /** A write of one field: `after` has `before`'s fields and the two
      written ones, `updatedAt` is `now`, and every other field is as it was. */
  predicate WroteOnly(before: Doc, after: Doc, field: string, now: string) {
    && after.Keys == before.Keys + {field, "updatedAt"}
    && after["updatedAt"] == Str(now)
    && forall k :: k in before && k != field && k != "updatedAt" ==> after[k] == before[k]
  }

  /** `after`'s `field` is `before`'s spread value with `item` at the end. */
  predicate Appended(before: Doc, after: Doc, field: string, item: Value) {
    && field in after && after[field].Arr?
    && Spread(Lookup(before, field)).Ok?
    && after[field].items == Spread(Lookup(before, field)).value + [item]
  }

  /** `addToUserArray`: the field's array, `[]` when it is missing or falsy,
      with `item` appended at the end; nothing else but `updatedAt` changes. */
  function AddToUserArray(store: Store, userId: string, fieldName: string, item: Value, now: string)
    : (r: Result<Written, UserError>)
    ensures userId !in store ==> r == Err(NoDocument)
    ensures userId in store ==> (r.Err? <==> Spread(Lookup(store[userId], fieldName)).Err?)
    ensures r.Ok? ==> userId in store && r.value.store == store[userId := r.value.user]
    ensures r.Ok? ==> WroteOnly(store[userId], r.value.user, fieldName, now)
    ensures r.Ok? && fieldName != "updatedAt" ==> Appended(store[userId], r.value.user, fieldName, item)
  {
    if userId !in store then Err(NoDocument)
    else
      var current :- Spread(Lookup(store[userId], fieldName));
      UpdateUser(store, userId, map[fieldName := Arr(current + [item])], now)
  }

  /** Adding to an array field keeps its items in place and puts the new one
      last: the array grows by exactly one. */
  lemma AddAppends(store: Store, userId: string, fieldName: string, item: Value, now: string)
    requires userId in store && fieldName != "updatedAt"
    requires Lookup(store[userId], fieldName).Some? && Lookup(store[userId], fieldName).value.Arr?
    ensures var before := store[userId][fieldName].items;
            var r := AddToUserArray(store, userId, fieldName, item, now);
            && r.Ok? && fieldName in r.value.user && r.value.user[fieldName].Arr?
            && |r.value.user[fieldName].items| == |before| + 1
            && r.value.user[fieldName].items[..|before|] == before
            && r.value.user[fieldName].items[|before|] == item
  {
    var before := store[userId][fieldName].items;
    var r := AddToUserArray(store, userId, fieldName, item, now);
    assert (before + [item])[..|before|] == before;
  }

  /* ---------------- removeFromUserArray ---------------- */

  /** The elements of `s` that `keep` accepts, in their order in `s`. */
  function Filter<T>(s: seq<T>, keep: T -> bool): (r: seq<T>)
    ensures |r| <= |s|
    ensures forall i :: 0 <= i < |r| ==> keep(r[i])
    decreases |s|
  {
    if |s| == 0 then []
    else Filter(s[..|s| - 1], keep) + (if keep(s[|s| - 1]) then [s[|s| - 1]] else [])
  }

  /** Filtering works piece by piece, so it keeps the order of what it keeps. */
  lemma {:induction false} FilterAppend<T>(a: seq<T>, b: seq<T>, keep: T -> bool)
    ensures Filter(a + b, keep) == Filter(a, keep) + Filter(b, keep)
    decreases |b|
  {
    if |b| == 0 {
      assert a + b == a;
    } else {
      assert (a + b)[..|a + b| - 1] == a + b[..|b| - 1];
      FilterAppend(a, b[..|b| - 1], keep);
    }
  }

  /** Exactly the accepted elements survive. */
  lemma {:induction false} FilterMembers<T>(s: seq<T>, keep: T -> bool, x: T)
    ensures x in Filter(s, keep) <==> x in s && keep(x)
    decreases |s|
  {
    if |s| > 0 {
      var init := s[..|s| - 1];
      FilterMembers(init, keep, x);
      assert s == init + [s[|s| - 1]];
    }
  }

  /** A sequence every element of which is accepted is its own filter. */
  lemma {:induction false} FilterKeepsAll<T>(s: seq<T>, keep: T -> bool)
    requires forall i :: 0 <= i < |s| ==> keep(s[i])
    ensures Filter(s, keep) == s
    decreases |s|
  {
    if |s| > 0 {
      FilterKeepsAll(s[..|s| - 1], keep);
    }
  }

  /** Filtering twice is filtering once. */
  lemma FilterIdempotent<T>(s: seq<T>, keep: T -> bool)
    ensures Filter(Filter(s, keep), keep) == Filter(s, keep)
  {
    FilterKeepsAll(Filter(s, keep), keep);
  }

  /** The filter callback `item => item[matchField] !== itemOrId` on a
      non-null item: an object's field, and `undefined` for anything else. */
  predicate KeepByField(name: string, id: Value, item: Value) {
    !(item.Obj? && name in item.fields && StrictEquals(item.fields[name], id))
  }

  /** The filter callback `item => item !== itemOrId`. */
  predicate KeepByValue(id: Value, item: Value) {
    !StrictEquals(item, id)
  }

  /** The callback with `matchField`, as a function value. */
  function ByField(name: string, id: Value): Value -> bool {
    (item: Value) => KeepByField(name, id, item)
  }

  /** The callback without `matchField`, as a function value. */
  function ByValue(id: Value): Value -> bool {
    (item: Value) => KeepByValue(id, item)
  }

  /** `currentArray.filter(...)`: a TypeError on a non-array, and with a
      `matchField` a TypeError on a `null` item. */
  function RemainingItems(current: Value, id: Value, matchField: Option<string>): (r: Result<seq<Value>, UserError>)
    ensures !current.Arr? ==> r == Err(NotAnArray)
    ensures current.Arr? && Truthy(matchField) ==>
              (r.Err? <==> Null in current.items)
              && (r.Ok? ==> r.value == Filter(current.items, ByField(matchField.value, id)))
    ensures current.Arr? && !Truthy(matchField) ==>
              r == Ok(Filter(current.items, ByValue(id)))
  {
    if !current.Arr? then Err(NotAnArray)
    else if Truthy(matchField) then
      if Null in current.items then Err(NullItem)
      else Ok(Filter(current.items, ByField(matchField.value, id)))
    else Ok(Filter(current.items, ByValue(id)))
  }

  /** `user[fieldName] || []`. */
  function Current(doc: Doc, field: string): Value {
    if IsTruthy(Lookup(doc, field)) then doc[field] else Arr([])
  }

  /** `after`'s `field` is what the filter leaves of `before`'s. */
  predicate Removed(before: Doc, after: Doc, field: string, id: Value, matchField: Option<string>) {
    && field in after && after[field].Arr?
    && RemainingItems(Current(before, field), id, matchField) == Ok(after[field].items)
  }

  /** `removeFromUserArray`: the field's array (`[]` when missing or falsy)
      without the items that match `itemOrId`, by the field `matchField` when
      one is given and by value otherwise; nothing else but `updatedAt`
      changes. */
  function RemoveFromUserArray(store: Store, userId: string, fieldName: string, itemOrId: Value,
                               matchField: Option<string>, now: string): (r: Result<Written, UserError>)
    ensures userId !in store ==> r == Err(NoDocument)
    ensures userId in store ==> (r.Err? <==> RemainingItems(Current(store[userId], fieldName), itemOrId, matchField).Err?)
    ensures userId in store && !IsTruthy(Lookup(store[userId], fieldName)) ==> r.Ok?
    ensures r.Ok? ==> userId in store && r.value.store == store[userId := r.value.user]
    ensures r.Ok? ==> WroteOnly(store[userId], r.value.user, fieldName, now)
    ensures r.Ok? && fieldName != "updatedAt" ==> Removed(store[userId], r.value.user, fieldName, itemOrId, matchField)
  {
    if userId !in store then Err(NoDocument)
    else
      var current := Current(store[userId], fieldName);
      var kept :- RemainingItems(current, itemOrId, matchField);
      UpdateUser(store, userId, map[fieldName := Arr(kept)], now)
  }

  /** What a removal keeps: exactly the earlier items that do not match, so
      the array never grows. */
  lemma RemoveKeepsExactly(store: Store, userId: string, fieldName: string, itemOrId: Value,
                           matchField: Option<string>, now: string, x: Value)
    requires fieldName != "updatedAt"
    requires RemoveFromUserArray(store, userId, fieldName, itemOrId, matchField, now).Ok?
    ensures var after := RemoveFromUserArray(store, userId, fieldName, itemOrId, matchField, now).value.user;
            var before := Current(store[userId], fieldName);
            && before.Arr?
            && |after[fieldName].items| <= |before.items|
            && (x in after[fieldName].items <==>
                  x in before.items
                  && if Truthy(matchField) then KeepByField(matchField.value, itemOrId, x)
                     else KeepByValue(itemOrId, x))
  {
    var before := Current(store[userId], fieldName);
    if Truthy(matchField) {
      FilterMembers(before.items, ByField(matchField.value, itemOrId), x);
    } else {
      FilterMembers(before.items, ByValue(itemOrId), x);
    }
  }

  /** Removing twice is removing once. */
  lemma RemoveTwice(store: Store, userId: string, fieldName: string, itemOrId: Value,
                    matchField: Option<string>, now: string)
    requires fieldName != "updatedAt"
    requires RemoveFromUserArray(store, userId, fieldName, itemOrId, matchField, now).Ok?
    ensures var w := RemoveFromUserArray(store, userId, fieldName, itemOrId, matchField, now).value;
            RemoveFromUserArray(w.store, userId, fieldName, itemOrId, matchField, now) == Ok(w)
  {
    var w := RemoveFromUserArray(store, userId, fieldName, itemOrId, matchField, now).value;
    var items := w.user[fieldName].items;
    RemainingStable(Current(store[userId], fieldName), itemOrId, matchField, items);
    assert Current(w.user, fieldName) == Arr(items);
    assert w.store[userId] == w.user;
    RewriteSame(w.store, userId, fieldName, Arr(items), now);
    assert w.store[userId := w.user] == w.store;
  }

  /** What the filter leaves, filtered again, stays as it is. */
  lemma RemainingStable(current: Value, id: Value, matchField: Option<string>, items: seq<Value>)
    requires RemainingItems(current, id, matchField) == Ok(items)
    ensures RemainingItems(Arr(items), id, matchField) == Ok(items)
  {
    if Truthy(matchField) {
      var keep := ByField(matchField.value, id);
      FilterIdempotent(current.items, keep);
      FilterMembers(current.items, keep, Null);
    } else {
      FilterIdempotent(current.items, ByValue(id));
    }
  }

  /** Writing a document's own field value at its own `updatedAt` changes
      nothing. */
  lemma RewriteSame(store: Store, userId: string, field: string, v: Value, now: string)
    requires userId in store && field in store[userId] && store[userId][field] == v
    requires "updatedAt" in store[userId] && store[userId]["updatedAt"] == Str(now)
    ensures UpdateUser(store, userId, map[field := v], now) == Ok(Written(store, store[userId]))
  {
    var doc := store[userId];
    var u := UpdateUser(store, userId, map[field := v], now).value;
    assert u.user.Keys == doc.Keys;
    forall k | k in doc
      ensures u.user[k] == doc[k]
    {
    }
    assert u.user == doc;
    assert store[userId := doc] == store;
  }

  /** Filtering out a primitive the sequence did not hold, after appending
      it, gives back the sequence. */
  lemma DropAppended(s: seq<Value>, item: Value)
    requires item.Str? || item.Num? || item.Bool?
    requires item !in s
    ensures Filter(s + [item], ByValue(item)) == s
  {
    var keep := ByValue(item);
    forall i | 0 <= i < |s|
      ensures keep(s[i])
    {
      assert s[i] != item;
    }
    FilterKeepsAll(s, keep);
    assert (s + [item])[..|s|] == s;
    assert !keep(item);
  }

  /** Removing by value after adding a primitive the array did not hold
      gives back the array as it was. */
  lemma AddThenRemove(store: Store, userId: string, fieldName: string, item: Value, now: string)
    requires userId in store && fieldName != "updatedAt"
    requires item.Str? || item.Num? || item.Bool?
    requires Lookup(store[userId], fieldName).Some? && Lookup(store[userId], fieldName).value.Arr?
    requires item !in store[userId][fieldName].items
    ensures var added := AddToUserArray(store, userId, fieldName, item, now);
            && added.Ok?
            && var removed := RemoveFromUserArray(added.value.store, userId, fieldName, item, None, now);
               && removed.Ok?
               && fieldName in removed.value.user
               && removed.value.user[fieldName] == store[userId][fieldName]
  {
    var before := store[userId][fieldName].items;
    var a := AddToUserArray(store, userId, fieldName, item, now).value;
    assert Current(a.user, fieldName) == Arr(before + [item]);
    DropAppended(before, item);
    assert RemainingItems(Arr(before + [item]), item, None) == Ok(before);
  }

  /* ---------------- the convenience wrappers ---------------- */

  /** `addCalendarToUser`: append to `calendars`. */
  function AddCalendarToUser(store: Store, userId: string, calendar: Value, now: string): (r: Result<Written, UserError>)
    ensures userId !in store ==> r == Err(NoDocument)
    ensures userId in store ==> (r.Err? <==> Spread(Lookup(store[userId], "calendars")).Err?)
    ensures r.Ok? ==> userId in store && r.value.store == store[userId := r.value.user]
    ensures r.Ok? ==> WroteOnly(store[userId], r.value.user, "calendars", now)
    ensures r.Ok? ==> Appended(store[userId], r.value.user, "calendars", calendar)
  {
    AddToUserArray(store, userId, "calendars", calendar, now)
  }

  /** No entry of `items` is an object whose `name` field is `id`. */
  predicate NoneWithField(items: seq<Value>, name: string, id: string) {
    forall i :: 0 <= i < |items| ==>
      !(items[i].Obj? && name in items[i].fields && items[i].fields[name] == Str(id))
  }

  /** `removeCalendarFromUser`: drop the calendars whose `calendarId` is the
      given id and keep the others in order. */
  function RemoveCalendarFromUser(store: Store, userId: string, calendarId: string, now: string)
    : (r: Result<Written, UserError>)
    ensures userId !in store ==> r == Err(NoDocument)
    ensures userId in store ==> (r.Err? <==> RemainingItems(Current(store[userId], "calendars"), Str(calendarId), Some("calendarId")).Err?)
    ensures userId in store && !IsTruthy(Lookup(store[userId], "calendars")) ==> r.Ok?
    ensures r.Ok? ==> userId in store && r.value.store == store[userId := r.value.user]
    ensures r.Ok? ==> WroteOnly(store[userId], r.value.user, "calendars", now)
    ensures r.Ok? ==> Removed(store[userId], r.value.user, "calendars", Str(calendarId), Some("calendarId"))
    ensures r.Ok? ==> NoneWithField(r.value.user["calendars"].items, "calendarId", calendarId)
  {
    RemoveFromUserArray(store, userId, "calendars", Str(calendarId), Some("calendarId"), now)
  }

  /** `addGroupToUser`: append to `groupIds`. */
  function AddGroupToUser(store: Store, userId: string, groupId: Value, now: string): (r: Result<Written, UserError>)
    ensures userId !in store ==> r == Err(NoDocument)
    ensures userId in store ==> (r.Err? <==> Spread(Lookup(store[userId], "groupIds")).Err?)
    ensures r.Ok? ==> userId in store && r.value.store == store[userId := r.value.user]
    ensures r.Ok? ==> WroteOnly(store[userId], r.value.user, "groupIds", now)
    ensures r.Ok? ==> Appended(store[userId], r.value.user, "groupIds", groupId)
  {
    AddToUserArray(store, userId, "groupIds", groupId, now)
  }

  /** `removeGroupFromUser`: drop the entries identical to the group id. */
  function RemoveGroupFromUser(store: Store, userId: string, groupId: Value, now: string)
    : (r: Result<Written, UserError>)
    ensures userId !in store ==> r == Err(NoDocument)
    ensures userId in store ==> (r.Err? <==> RemainingItems(Current(store[userId], "groupIds"), groupId, None).Err?)
    ensures userId in store && !IsTruthy(Lookup(store[userId], "groupIds")) ==> r.Ok?
    ensures r.Ok? ==> userId in store && r.value.store == store[userId := r.value.user]
    ensures r.Ok? ==> WroteOnly(store[userId], r.value.user, "groupIds", now)
    ensures r.Ok? ==> Removed(store[userId], r.value.user, "groupIds", groupId, None)
    ensures r.Ok? ==> forall i :: 0 <= i < |r.value.user["groupIds"].items| ==>
              !StrictEquals(r.value.user["groupIds"].items[i], groupId)
  {
    var r := RemoveFromUserArray(store, userId, "groupIds", groupId, None, now);
    if r.Ok? then
      var items := r.value.user["groupIds"].items;
      assert forall i :: 0 <= i < |items| ==> ByValue(groupId)(items[i]);
      r
    else r
  }

  /** `addSubscriptionToUser`: append to `subscriptions`. */
  function AddSubscriptionToUser(store: Store, userId: string, subscription: Value, now: string)
    : (r: Result<Written, UserError>)
    ensures userId !in store ==> r == Err(NoDocument)
    ensures userId in store ==> (r.Err? <==> Spread(Lookup(store[userId], "subscriptions")).Err?)
    ensures r.Ok? ==> userId in store && r.value.store == store[userId := r.value.user]
    ensures r.Ok? ==> WroteOnly(store[userId], r.value.user, "subscriptions", now)
    ensures r.Ok? ==> Appended(store[userId], r.value.user, "subscriptions", subscription)
  {
    AddToUserArray(store, userId, "subscriptions", subscription, now)
  }

  /** `removeSubscriptionFromUser`: drop the subscriptions whose
      `subscriptionId` is the given id and keep the others in order. */
  function RemoveSubscriptionFromUser(store: Store, userId: string, subscriptionId: string, now: string)
    : (r: Result<Written, UserError>)
    ensures userId !in store ==> r == Err(NoDocument)
    ensures userId in store ==> (r.Err? <==> RemainingItems(Current(store[userId], "subscriptions"), Str(subscriptionId), Some("subscriptionId")).Err?)
    ensures userId in store && !IsTruthy(Lookup(store[userId], "subscriptions")) ==> r.Ok?
    ensures r.Ok? ==> userId in store && r.value.store == store[userId := r.value.user]
    ensures r.Ok? ==> WroteOnly(store[userId], r.value.user, "subscriptions", now)
    ensures r.Ok? ==> Removed(store[userId], r.value.user, "subscriptions", Str(subscriptionId), Some("subscriptionId"))
    ensures r.Ok? ==> NoneWithField(r.value.user["subscriptions"].items, "subscriptionId", subscriptionId)
  {
    RemoveFromUserArray(store, userId, "subscriptions", Str(subscriptionId), Some("subscriptionId"), now)
  }

  /* ---------------- sign-in ---------------- */

  /** The fields of the signed-in Firebase user the service reads. */
  datatype FirebaseUser = FirebaseUser(
    uid: string, email: Option<string>, displayName: Option<string>, photoURL: Option<string>)

  /** The fields every new user document has. */
  const NewUserFields: set<string> := {
    "userId", "email", "fullName", "role", "timezone", "groupIds", "calendars", "subscriptions",
    "createdAt", "updatedAt", "isActive", "authProviders"}

  /** `createNewUser`'s document: an adult with no groups, calendars or
      subscriptions, active, created and updated at `now`, with `""` for a
      missing email or name and no picture unless the account has one. */
  function NewUserDoc(u: FirebaseUser, now: string, timezone: string): (d: Doc)
    ensures d.Keys == NewUserFields + (if Truthy(u.photoURL) then {"profilePicture"} else {})
    ensures d["userId"] == Str(u.uid)
    ensures d["email"] == Str(OrElse(u.email, "")) && d["fullName"] == Str(OrElse(u.displayName, ""))
    ensures d["role"] == Str("adult") && d["isActive"] == Bool(true)
    ensures d["groupIds"] == Arr([]) && d["calendars"] == Arr([]) && d["subscriptions"] == Arr([])
    ensures d["createdAt"] == d["updatedAt"] == Str(now)
    ensures Truthy(u.photoURL) ==> d["profilePicture"] == Str(u.photoURL.value)
    ensures d["authProviders"] == Arr([Str("google")]) && d["timezone"] == Str(timezone)
  {
    var base := map[
      "userId" := Str(u.uid),
      "email" := Str(OrElse(u.email, "")),
      "fullName" := Str(OrElse(u.displayName, "")),
      "role" := Str("adult"),
      "timezone" := Str(timezone),
      "groupIds" := Arr([]),
      "calendars" := Arr([]),
      "subscriptions" := Arr([]),
      "createdAt" := Str(now),
      "updatedAt" := Str(now),
      "isActive" := Bool(true),
      "authProviders" := Arr([Str("google")])];
    if Truthy(u.photoURL) then base["profilePicture" := Str(u.photoURL.value)] else base
  }

  /** `createNewUser`: store the new document under the uid. */
  function CreateNewUser(store: Store, u: FirebaseUser, now: string, timezone: string): (r: Written)
    ensures r.store == store[u.uid := r.user] && r.user == NewUserDoc(u, now, timezone)
  {
    var d := NewUserDoc(u, now, timezone);
    Written(store[u.uid := d], d)
  }

  /** Where the user is after signing in. */
  datatype AuthStatus = NeedsDob | Complete

  datatype SignedIn = SignedIn(status: AuthStatus, user: Doc, store: Store)

  /** `handleUserAuthentication`: a stored user is returned as stored, with
      `complete` exactly when the date of birth is set; a new user is created
      and needs the date of birth. */
  function HandleUserAuthentication(store: Store, u: FirebaseUser, now: string, timezone: string): (r: SignedIn)
    ensures u.uid in store ==> r.store == store && r.user == store[u.uid]
    ensures u.uid in store ==> (r.status == Complete <==> IsTruthy(Lookup(store[u.uid], "dateOfBirth")))
    ensures u.uid !in store ==> r.status == NeedsDob && r.store == store[u.uid := r.user]
    ensures u.uid !in store ==> r.user == NewUserDoc(u, now, timezone)
  {
    if u.uid in store then
      var data := store[u.uid];
      SignedIn(if IsTruthy(Lookup(data, "dateOfBirth")) then Complete else NeedsDob, data, store)
    else
      var w := CreateNewUser(store, u, now, timezone);
      SignedIn(NeedsDob, w.user, w.store)
  }

  /** Signing in again before the date of birth is given finds the document
      the first sign-in created, unchanged, and still asks for it. */
  lemma SignInTwice(store: Store, u: FirebaseUser, now: string, later: string, timezone: string)
    requires u.uid !in store
    ensures var first := HandleUserAuthentication(store, u, now, timezone);
            var second := HandleUserAuthentication(first.store, u, later, timezone);
            second == SignedIn(NeedsDob, first.user, first.store)
  {
    var first := HandleUserAuthentication(store, u, now, timezone);
    NewUserHasNoDob(u, now, timezone);
    assert first.store[u.uid] == first.user;
  }

  /** A new document has no date of birth. */
  lemma NewUserHasNoDob(u: FirebaseUser, now: string, timezone: string)
    ensures Lookup(NewUserDoc(u, now, timezone), "dateOfBirth") == None
  {
    assert "dateOfBirth" !in NewUserFields;
    assert "dateOfBirth" != "profilePicture";
  }

  /** Once `updateDateOfBirth` has stored a date, signing in is complete. */
  lemma DobCompletes(store: Store, u: FirebaseUser, dob: string, now: string, later: string, timezone: string)
    requires u.uid in store && dob != ""
    ensures var w := UpdateUser(store, u.uid, map["dateOfBirth" := Str(dob)], now).value;
            HandleUserAuthentication(w.store, u, later, timezone).status == Complete
  {
    var w := UpdateUser(store, u.uid, map["dateOfBirth" := Str(dob)], now).value;
    assert w.user["dateOfBirth"] == Str(dob);
  }
}
