/** The screen every tool result passes before it reaches the calling assistant. */
module ResultScreen {
  import opened Wrappers

  /** A JSON value. The members of an object are listed by ascending key, as its map keeps them. */
  datatype Json =
    | Null
    | Bool(truth: bool)
    | Number(digits: string)
    | Text(text: string)
    | List(items: seq<Json>)
    | Object(members: seq<Member>)

  datatype Member = Member(key: string, value: Json)

  /** The keys whose subtrees something downstream matches byte for byte. */
  predicate Verbatim(key: string) {
    key == "params" || key == "transaction_id" || key == "approval_receipt"
  }

  // ----- the ordered map behind an object -----

  predicate Less(a: string, b: string) {
    b != "" && (a == "" || a[0] < b[0] || (a[0] == b[0] && Less(a[1..], b[1..])))
  }

  predicate Ascending(ms: seq<Member>) {
    |ms| <= 1 || (Less(ms[0].key, ms[1].key) && Ascending(ms[1..]))
  }

  function Find(ms: seq<Member>, key: string): Option<Json> {
    if ms == [] then None else if ms[0].key == key then Some(ms[0].value) else Find(ms[1..], key)
  }

  /** `Map::insert`: replaces the value of a key that is there. */
  function Insert(ms: seq<Member>, key: string, value: Json): seq<Member> {
    if ms == [] || Less(key, ms[0].key) then [Member(key, value)] + ms
    else if ms[0].key == key then [Member(key, value)] + ms[1..]
    else [ms[0]] + Insert(ms[1..], key, value)
  }

  /** Every object in the value lists its keys in ascending order, so without repeats. */
  predicate Valid(value: Json)
    decreases value
  {
    match value
    case List(items) => forall i :: 0 <= i < |items| ==> Valid(items[i])
    case Object(ms) => Ascending(ms) && forall i :: 0 <= i < |ms| ==> Valid(ms[i].value)
    case _ => true
  }

  // ----- the screen -----

  /** Screens a value, or names the key that two members would share. */
  function Screen(norm: string -> string, value: Json): Result<Json, string>
    decreases value
  {
    match value
    case Text(s) => Ok(Text(norm(s)))
    case List(items) =>
      (match ScreenItems(norm, items)
       case Ok(screened) => Ok(List(screened))
       case Err(key) => Err(key))
    case Object(ms) =>
      (match ScreenMembers(norm, ms, [])
       case Ok(rebuilt) => Ok(Object(rebuilt))
       case Err(key) => Err(key))
    case _ => Ok(value)
  }

  function ScreenItems(norm: string -> string, items: seq<Json>): (r: Result<seq<Json>, string>)
    decreases items
  {
    if items == [] then Ok([]) else
      match Screen(norm, items[0])
      case Err(key) => Err(key)
      case Ok(first) =>
        match ScreenItems(norm, items[1..])
        case Err(key) => Err(key)
        case Ok(rest) => Ok([first] + rest)
  }

  function ScreenMembers(norm: string -> string, ms: seq<Member>, rebuilt: seq<Member>): Result<seq<Member>, string>
    decreases ms
  {
    if ms == [] then Ok(rebuilt)
    else if Verbatim(ms[0].key) then
      ScreenMembers(norm, ms[1..], Insert(rebuilt, ms[0].key, ms[0].value))
    else
      match Screen(norm, ms[0].value)
      case Err(key) => Err(key)
      case Ok(child) =>
        var safeKey := norm(ms[0].key);
        if Find(rebuilt, safeKey).Some? then Err(safeKey)
        else ScreenMembers(norm, ms[1..], Insert(rebuilt, safeKey, child))
  }

  /** `sanitise_result_json`, with its loops. */
  method SanitiseResult(norm: string -> string, value: Json) returns (r: Result<Json, string>)
    ensures r == Screen(norm, value)
    decreases value
  {
    hide Insert, Find, Less, Ascending, Valid;
    match value {
      case Text(s) => return Ok(Text(norm(s)));
      case List(items) =>
        var screened := [];
        assert items[0..] == items;
        PrependedNone(ScreenItems(norm, items));
        for i := 0 to |items|
          invariant ScreenItems(norm, items) == Prepended(screened, ScreenItems(norm, items[i..]))
        {
          assert items[i..][1..] == items[i + 1..];
          var item := SanitiseResult(norm, items[i]);
          if item.Err? {
            return Err(item.error);
          }
          PrependedOne(screened, item.value, ScreenItems(norm, items[i + 1..]));
          screened := screened + [item.value];
        }
        assert screened + [] == screened;
        return Ok(List(screened));
      case Object(ms) =>
        var rebuilt := [];
        assert ms[0..] == ms;
        for i := 0 to |ms|
          invariant ScreenMembers(norm, ms, []) == ScreenMembers(norm, ms[i..], rebuilt)
        {
          assert ms[i..][1..] == ms[i + 1..];
          if Verbatim(ms[i].key) {
            rebuilt := Insert(rebuilt, ms[i].key, ms[i].value);
          } else {
            var child := SanitiseResult(norm, ms[i].value);
            if child.Err? {
              return Err(child.error);
            }
            var safeKey := norm(ms[i].key);
            if Find(rebuilt, safeKey).Some? {
              return Err(safeKey);
            }
            rebuilt := Insert(rebuilt, safeKey, child.value);
          }
        }
        return Ok(Object(rebuilt));
      case _ => return Ok(value);
    }
  }

  ghost function Prepended(front: seq<Json>, rest: Result<seq<Json>, string>): Result<seq<Json>, string> {
    match rest
    case Ok(items) => Ok(front + items)
    case Err(key) => Err(key)
  }

  lemma {:induction false} PrependedNone(rest: Result<seq<Json>, string>)
    ensures Prepended([], rest) == rest
  {
    if rest.Ok? {
      assert [] + rest.value == rest.value;
    }
  }

  lemma {:induction false} PrependedOne(front: seq<Json>, item: Json, rest: Result<seq<Json>, string>)
    ensures Prepended(front + [item], rest) == Prepended(front, Prepended([item], rest))
  {
    if rest.Ok? {
      assert front + [item] + rest.value == front + ([item] + rest.value);
    }
  }

  // ----- the map -----

  lemma {:induction false} LessOrder(a: string, b: string, c: string)
    ensures !(Less(a, b) && Less(b, a)) && !Less(a, a)
    ensures a == b || Less(a, b) || Less(b, a)
    ensures Less(a, b) && Less(b, c) ==> Less(a, c)
  {
    if a != "" && b != "" {
      assert a == [a[0]] + a[1..] && b == [b[0]] + b[1..];
      LessOrder(a[1..], b[1..], if c == "" then "" else c[1..]);
    } else if a != "" {
      LessSelf(a);
    }
  }

  lemma {:induction false} LessSelf(a: string)
    ensures !Less(a, a)
  {
    if a != "" {
      LessSelf(a[1..]);
    }
  }

  lemma {:induction false} FindInsert(ms: seq<Member>, key: string, value: Json, q: string)
    ensures Find(Insert(ms, key, value), q) == if q == key then Some(value) else Find(ms, q)
  {
    hide Less;
    if ms == [] || Less(key, ms[0].key) {
      assert ([Member(key, value)] + ms)[1..] == ms;
    } else if ms[0].key == key {
      assert ([Member(key, value)] + ms[1..])[1..] == ms[1..];
    } else {
      FindInsert(ms[1..], key, value, q);
      assert ([ms[0]] + Insert(ms[1..], key, value))[1..] == Insert(ms[1..], key, value);
    }
  }

  lemma {:induction false} InsertOnlyAdds(ms: seq<Member>, key: string, value: Json, m: Member)
    requires m in Insert(ms, key, value)
    ensures m == Member(key, value) || m in ms
  {
    hide Less;
    if ms != [] && !Less(key, ms[0].key) && ms[0].key != key && m != ms[0] {
      InsertOnlyAdds(ms[1..], key, value, m);
    }
  }

  /** In ascending order the first key is the least. */
  lemma {:induction false} HeadLeast(ms: seq<Member>, i: nat)
    requires Ascending(ms) && 0 < i < |ms|
    ensures Less(ms[0].key, ms[i].key) && ms[0].key != ms[i].key
  {
    hide Less;
    if i > 1 {
      HeadLeast(ms[1..], i - 1);
      LessOrder(ms[0].key, ms[1].key, ms[i].key);
    }
    LessOrder(ms[0].key, ms[i].key, "");
  }

  lemma {:induction false} FoundMember(ms: seq<Member>, q: string) returns (i: nat)
    requires Find(ms, q).Some?
    ensures i < |ms| && ms[i].key == q && Find(ms, q).value == ms[i].value
  {
    if ms[0].key == q {
      i := 0;
    } else {
      i := FoundMember(ms[1..], q);
      i := i + 1;
    }
  }

  lemma {:induction false} HeadAbsent(ms: seq<Member>)
    requires Ascending(ms) && ms != []
    ensures Find(ms[1..], ms[0].key) == None
  {
    hide Less, Find, Ascending;
    if Find(ms[1..], ms[0].key).Some? {
      var i := FoundMember(ms[1..], ms[0].key);
      HeadLeast(ms, i + 1);
    }
  }

  lemma {:induction false} InsertAscending(ms: seq<Member>, key: string, value: Json)
    requires Ascending(ms)
    ensures Ascending(Insert(ms, key, value))
    ensures |Insert(ms, key, value)| == |ms| + (if Find(ms, key) == None then 1 else 0)
  {
    hide Less;
    if ms == [] {
    } else if Less(key, ms[0].key) {
      BelowAbsent(ms, key);
      assert ([Member(key, value)] + ms)[1..] == ms;
    } else if ms[0].key == key {
      var t := [Member(key, value)] + ms[1..];
      assert t[1..] == ms[1..];
    } else {
      InsertAscending(ms[1..], key, value);
      LessOrder(ms[0].key, key, "");
      var rest := Insert(ms[1..], key, value);
      assert ([ms[0]] + rest)[1..] == rest;
      assert rest[0].key == key || (|ms| > 1 && rest[0] == ms[1]);
    }
  }

  lemma {:induction false} BelowAbsent(ms: seq<Member>, key: string)
    requires Ascending(ms) && ms != [] && Less(key, ms[0].key)
    ensures Find(ms, key) == None
  {
    hide Less, Find, Ascending;
    if Find(ms, key).Some? {
      var i := FoundMember(ms, key);
      if i > 0 {
        HeadLeast(ms, i);
      }
      LessOrder(key, ms[0].key, key);
      LessSelf(key);
    }
  }

  /** A key above all the others goes to the end. */
  lemma {:induction false} InsertLast(ms: seq<Member>, i: nat)
    requires Ascending(ms) && i < |ms|
    ensures Insert(ms[..i], ms[i].key, ms[i].value) == ms[..i + 1]
    ensures Find(ms[..i], ms[i].key) == None
  {
    hide Less;
    var m := ms[i];
    assert m == Member(m.key, m.value);
    if i == 0 {
      assert [m] + ms[..0] == ms[..1];
    } else {
      HeadLeast(ms, i);
      LessOrder(ms[0].key, m.key, "");
      InsertLast(ms[1..], i - 1);
      assert ms[..i][1..] == ms[1..][..i - 1];
      assert [ms[0]] + ms[1..][..i] == ms[..i + 1];
    }
  }

  // ----- what a screened value is -----

  /** Capped normalisation of a normalised text changes nothing. */
  ghost predicate Idempotent(norm: string -> string) {
    forall s :: norm(norm(s)) == norm(s)
  }

  /** Every text and key outside the verbatim subtrees is in normal form. */
  predicate Screened(norm: string -> string, value: Json)
    decreases value
  {
    match value
    case Text(s) => norm(s) == s
    case List(items) => forall i :: 0 <= i < |items| ==> Screened(norm, items[i])
    case Object(ms) => forall i :: 0 <= i < |ms| ==>
      Verbatim(ms[i].key) || (norm(ms[i].key) == ms[i].key && Screened(norm, ms[i].value))
    case _ => true
  }

  ghost predicate Good(norm: string -> string, m: Member) {
    Valid(m.value) && (Verbatim(m.key) || (norm(m.key) == m.key && Screened(norm, m.value)))
  }

  ghost predicate AllGood(norm: string -> string, ms: seq<Member>) {
    forall m :: m in ms ==> Good(norm, m)
  }

  lemma {:induction false} InsertGood(norm: string -> string, ms: seq<Member>, key: string, value: Json)
    requires AllGood(norm, ms) && Good(norm, Member(key, value))
    ensures AllGood(norm, Insert(ms, key, value))
  {
    hide Insert, Good;
    forall m | m in Insert(ms, key, value) ensures Good(norm, m) {
      InsertOnlyAdds(ms, key, value, m);
    }
  }

  /** The result is a value again, and all of it is in normal form. */
  lemma {:induction false} ScreenedAfter(norm: string -> string, value: Json)
    requires Idempotent(norm) && Valid(value) && Screen(norm, value).Ok?
    ensures Valid(Screen(norm, value).value) && Screened(norm, Screen(norm, value).value)
    decreases value
  {
    hide Insert, Find, Less, Ascending, Good, ScreenMembers, ScreenItems;
    if value.List? {
      ItemsScreenedAfter(norm, value.items);
    } else if value.Object? {
      assert Ascending([]) by { NoneAscending(); }
      MembersScreenedAfter(norm, value.members, []);
      GoodObject(norm, ScreenMembers(norm, value.members, []).value);
    }
  }

  lemma {:induction false} NoneAscending()
    ensures Ascending([])
  {
  }

  lemma {:induction false} GoodObject(norm: string -> string, ms: seq<Member>)
    requires AllGood(norm, ms) && Ascending(ms)
    ensures Valid(Object(ms)) && Screened(norm, Object(ms))
  {
    hide Ascending, Verbatim;
    forall i | 0 <= i < |ms| ensures Good(norm, ms[i]) {
      assert ms[i] in ms;
    }
  }

  lemma {:induction false} ItemsScreenedAfter(norm: string -> string, items: seq<Json>)
    requires Idempotent(norm) && (forall i :: 0 <= i < |items| ==> Valid(items[i]))
    requires ScreenItems(norm, items).Ok?
    ensures forall w :: w in ScreenItems(norm, items).value ==> Valid(w) && Screened(norm, w)
    decreases items
  {
    hide Valid, Screened, Screen, Idempotent;
    if items != [] {
      ScreenedAfter(norm, items[0]);
      assert forall i :: 0 <= i < |items| - 1 ==> items[1..][i] == items[i + 1];
      ItemsScreenedAfter(norm, items[1..]);
    }
  }

  lemma {:induction false} MembersScreenedAfter(norm: string -> string, ms: seq<Member>, rebuilt: seq<Member>)
    requires Idempotent(norm) && (forall i :: 0 <= i < |ms| ==> Valid(ms[i].value))
    requires AllGood(norm, rebuilt) && Ascending(rebuilt)
    requires ScreenMembers(norm, ms, rebuilt).Ok?
    ensures AllGood(norm, ScreenMembers(norm, ms, rebuilt).value)
    ensures Ascending(ScreenMembers(norm, ms, rebuilt).value)
    decreases ms
  {
    hide Valid, Screened, Screen, AllGood, Ascending, Insert, Find, Verbatim;
    if ms != [] {
      var key, child := ms[0].key, ms[0].value;
      if !Verbatim(key) {
        ScreenedAfter(norm, child);
        child := Screen(norm, child).value;
        key := norm(key);
      }
      InsertGood(norm, rebuilt, key, child);
      InsertAscending(rebuilt, key, child);
      assert forall i :: 0 <= i < |ms| - 1 ==> ms[1..][i] == ms[i + 1];
      MembersScreenedAfter(norm, ms[1..], Insert(rebuilt, key, child));
    }
  }

  /** A value already in normal form passes unchanged. */
  lemma {:induction false} ScreenedPasses(norm: string -> string, value: Json)
    requires Valid(value) && Screened(norm, value)
    ensures Screen(norm, value) == Ok(value)
    decreases value
  {
    hide Insert, Find, Less, Ascending, ScreenMembers, ScreenItems;
    if value.List? {
      ItemsPass(norm, value.items);
    } else if value.Object? {
      assert value.members[0..] == value.members && value.members[..0] == [];
      MembersPass(norm, value.members, 0);
    }
  }

  lemma {:induction false} ItemsPass(norm: string -> string, items: seq<Json>)
    requires forall i :: 0 <= i < |items| ==> Valid(items[i]) && Screened(norm, items[i])
    ensures ScreenItems(norm, items) == Ok(items)
    decreases items
  {
    hide Valid, Screened, Screen;
    if items != [] {
      ScreenedPasses(norm, items[0]);
      assert forall i :: 0 <= i < |items| - 1 ==> items[1..][i] == items[i + 1];
      ItemsPass(norm, items[1..]);
      assert [items[0]] + items[1..] == items;
    }
  }

  lemma {:induction false} MembersPass(norm: string -> string, ms: seq<Member>, n: nat)
    requires Ascending(ms) && n <= |ms|
    requires forall i :: 0 <= i < |ms| ==> Valid(ms[i].value)
    requires forall i :: 0 <= i < |ms| ==>
      Verbatim(ms[i].key) || (norm(ms[i].key) == ms[i].key && Screened(norm, ms[i].value))
    ensures ScreenMembers(norm, ms[n..], ms[..n]) == Ok(ms)
    decreases ms, |ms| - n
  {
    hide Valid, Screened, Screen, Ascending, Insert, Find, Verbatim;
    if n == |ms| {
      assert ms[..n] == ms;
    } else {
      if !Verbatim(ms[n].key) {
        ScreenedPasses(norm, ms[n].value);
      }
      InsertLast(ms, n);
      assert ms[n..][0] == ms[n] && ms[n..][1..] == ms[n + 1..];
      MembersPass(norm, ms, n + 1);
    }
  }

  /** The screen leaves a value alone exactly when it is already in normal form. */
  lemma {:induction false} UnchangedIff(norm: string -> string, value: Json)
    requires Idempotent(norm) && Valid(value)
    ensures Screen(norm, value) == Ok(value) <==> Screened(norm, value)
  {
    hide Valid, Screened, Screen, Idempotent;
    if Screened(norm, value) {
      ScreenedPasses(norm, value);
    }
    if Screen(norm, value) == Ok(value) {
      ScreenedAfter(norm, value);
    }
  }

  lemma {:induction false} ScreenTwice(norm: string -> string, value: Json)
    requires Idempotent(norm) && Valid(value) && Screen(norm, value).Ok?
    ensures Screen(norm, Screen(norm, value).value) == Screen(norm, value)
  {
    hide Valid, Screened, Screen, Idempotent;
    ScreenedAfter(norm, value);
    ScreenedPasses(norm, Screen(norm, value).value);
  }

  // ----- when it refuses -----

  /** The key a member ends up under. */
  function FinalKey(norm: string -> string, m: Member): string {
    if Verbatim(m.key) then m.key else norm(m.key)
  }

  /** No member of the given kind (verbatim or normalised) lands on a key already taken. */
  ghost predicate Clear(norm: string -> string, ms: seq<Member>, rebuilt: seq<Member>, verbatim: bool) {
    (forall j :: 0 <= j < |ms| && Verbatim(ms[j].key) == verbatim ==> Find(rebuilt, FinalKey(norm, ms[j])).None?) &&
    Apart(norm, ms, verbatim)
  }

  ghost predicate Apart(norm: string -> string, ms: seq<Member>, verbatim: bool) {
    forall i, j :: 0 <= i < j < |ms| && Verbatim(ms[j].key) == verbatim ==>
      FinalKey(norm, ms[i]) != FinalKey(norm, ms[j])
  }

  lemma {:induction false} ClearStep(norm: string -> string, ms: seq<Member>, rebuilt: seq<Member>, value: Json,
      verbatim: bool)
    requires ms != []
    ensures Clear(norm, ms, rebuilt, verbatim) <==>
      (Verbatim(ms[0].key) == verbatim ==> Find(rebuilt, FinalKey(norm, ms[0])).None?) &&
      Clear(norm, ms[1..], Insert(rebuilt, FinalKey(norm, ms[0]), value), verbatim)
  {
    hide Insert, Find, Verbatim, FinalKey;
    var next := Insert(rebuilt, FinalKey(norm, ms[0]), value);
    forall j | 0 < j < |ms|
      ensures Find(next, FinalKey(norm, ms[j])) ==
        if FinalKey(norm, ms[j]) == FinalKey(norm, ms[0]) then Some(value) else Find(rebuilt, FinalKey(norm, ms[j]))
    {
      FindInsert(rebuilt, FinalKey(norm, ms[0]), value, FinalKey(norm, ms[j]));
    }
    if Clear(norm, ms, rebuilt, verbatim) {
      ClearTail(norm, ms, rebuilt, next, verbatim);
    }
    if Clear(norm, ms[1..], next, verbatim) &&
       (Verbatim(ms[0].key) == verbatim ==> Find(rebuilt, FinalKey(norm, ms[0])).None?) {
      ClearWhole(norm, ms, rebuilt, next, verbatim);
    }
  }

  lemma {:induction false} ClearTail(norm: string -> string, ms: seq<Member>, rebuilt: seq<Member>, next: seq<Member>,
      verbatim: bool)
    requires ms != [] && Clear(norm, ms, rebuilt, verbatim)
    requires forall j :: 0 < j < |ms| && Find(next, FinalKey(norm, ms[j])).Some? ==>
      FinalKey(norm, ms[j]) == FinalKey(norm, ms[0]) || Find(rebuilt, FinalKey(norm, ms[j])).Some?
    ensures Clear(norm, ms[1..], next, verbatim)
  {
    hide Insert, Find, Verbatim, FinalKey;
    assert forall j :: 0 <= j < |ms| - 1 ==> ms[1..][j] == ms[j + 1];
  }

  lemma {:induction false} ClearWhole(norm: string -> string, ms: seq<Member>, rebuilt: seq<Member>, next: seq<Member>,
      verbatim: bool)
    requires ms != [] && Clear(norm, ms[1..], next, verbatim)
    requires Verbatim(ms[0].key) == verbatim ==> Find(rebuilt, FinalKey(norm, ms[0])).None?
    requires forall j :: 0 < j < |ms| && Find(next, FinalKey(norm, ms[j])).None? ==>
      FinalKey(norm, ms[j]) != FinalKey(norm, ms[0]) && Find(rebuilt, FinalKey(norm, ms[j])).None?
    ensures Clear(norm, ms, rebuilt, verbatim)
  {
    hide Insert, Find, Verbatim, FinalKey;
    var t := ms[1..];
    forall j | 0 < j < |ms| && Verbatim(ms[j].key) == verbatim
      ensures Find(next, FinalKey(norm, ms[j])).None?
      ensures forall i :: 0 < i < j ==> FinalKey(norm, ms[i]) != FinalKey(norm, ms[j])
    {
      assert t[j - 1] == ms[j];
      forall i | 0 < i < j ensures FinalKey(norm, ms[i]) != FinalKey(norm, ms[j]) {
        assert t[i - 1] == ms[i];
      }
    }
  }

  /** No object outside the verbatim subtrees has a normalised key that an earlier member took. */
  ghost predicate Agreeable(norm: string -> string, value: Json)
    decreases value
  {
    match value
    case List(items) => forall i :: 0 <= i < |items| ==> Agreeable(norm, items[i])
    case Object(ms) =>
      Apart(norm, ms, false) &&
      forall i :: 0 <= i < |ms| && !Verbatim(ms[i].key) ==> Agreeable(norm, ms[i].value)
    case _ => true
  }

  /** The screen refuses a value exactly when two members would share a key and the later of the two
      is one whose key it normalises. */
  lemma {:induction false} RefusedIff(norm: string -> string, value: Json)
    ensures Screen(norm, value).Ok? <==> Agreeable(norm, value)
    decreases value
  {
    hide Find, Insert, FinalKey, Verbatim, Apart, ScreenItems, ScreenMembers;
    if value.List? {
      ItemsRefusedIff(norm, value.items);
    } else if value.Object? {
      MembersRefusedIff(norm, value.members, []);
      NoneTaken(norm, value.members, false);
    }
  }

  lemma {:induction false} NoneTaken(norm: string -> string, ms: seq<Member>, verbatim: bool)
    ensures Clear(norm, ms, [], verbatim) <==> Apart(norm, ms, verbatim)
  {
  }

  lemma {:induction false} ItemsRefusedIff(norm: string -> string, items: seq<Json>)
    ensures ScreenItems(norm, items).Ok? <==> forall i :: 0 <= i < |items| ==> Agreeable(norm, items[i])
    decreases items
  {
    hide Screen, Agreeable;
    if items != [] {
      RefusedIff(norm, items[0]);
      ItemsRefusedIff(norm, items[1..]);
      assert forall i :: 0 <= i < |items| - 1 ==> items[1..][i] == items[i + 1];
      assert forall i :: 0 < i < |items| ==> items[i] == items[1..][i - 1];
    }
  }

  ghost predicate ChildrenAgreeable(norm: string -> string, ms: seq<Member>) {
    forall i :: 0 <= i < |ms| && !Verbatim(ms[i].key) ==> Agreeable(norm, ms[i].value)
  }

  lemma {:induction false} ChildrenStep(norm: string -> string, ms: seq<Member>)
    requires ms != []
    ensures ChildrenAgreeable(norm, ms) <==>
      (!Verbatim(ms[0].key) ==> Agreeable(norm, ms[0].value)) && ChildrenAgreeable(norm, ms[1..])
  {
    hide Verbatim, Agreeable;
    assert forall i :: 0 <= i < |ms| - 1 ==> ms[1..][i] == ms[i + 1];
    assert forall i :: 0 < i < |ms| ==> ms[i] == ms[1..][i - 1];
  }

  lemma {:induction false} MembersRefusedIff(norm: string -> string, ms: seq<Member>, rebuilt: seq<Member>)
    ensures ScreenMembers(norm, ms, rebuilt).Ok? <==> ChildrenAgreeable(norm, ms) && Clear(norm, ms, rebuilt, false)
    decreases ms
  {
    hide Screen, Agreeable, Find, Insert, Verbatim, Clear, ChildrenAgreeable;
    if ms == [] {
      NoMembers(norm, rebuilt);
    } else {
      var m := ms[0];
      ChildrenStep(norm, ms);
      if Verbatim(m.key) {
        ClearStep(norm, ms, rebuilt, m.value, false);
        MembersRefusedIff(norm, ms[1..], Insert(rebuilt, m.key, m.value));
      } else {
        RefusedIff(norm, m.value);
        if Screen(norm, m.value).Ok? {
          var child := Screen(norm, m.value).value;
          ClearStep(norm, ms, rebuilt, child, false);
          MembersRefusedIff(norm, ms[1..], Insert(rebuilt, norm(m.key), child));
        }
      }
    }
  }

  lemma {:induction false} NoMembers(norm: string -> string, rebuilt: seq<Member>)
    ensures ChildrenAgreeable(norm, []) && Clear(norm, [], rebuilt, false) && Clear(norm, [], rebuilt, true)
  {
  }

  // ----- what happens to the members of an object -----

  /** The screened object has one member for each member of the original exactly when no earlier
      member's key normalises to a verbatim key that follows it. */
  lemma {:induction false} MembersKeptIff(norm: string -> string, ms: seq<Member>)
    requires Valid(Object(ms)) && Screen(norm, Object(ms)).Ok?
    ensures |Screen(norm, Object(ms)).value.members| <= |ms|
    ensures |Screen(norm, Object(ms)).value.members| == |ms| <==>
      forall i, j :: 0 <= i < j < |ms| && !Verbatim(ms[i].key) && Verbatim(ms[j].key) ==> norm(ms[i].key) != ms[j].key
  {
    hide Find, Insert, ScreenMembers, Less, Clear, Ascending;
    NoneAscending();
    CountKept(norm, ms, []);
    NoneTaken(norm, ms, true);
    forall i, j | 0 <= i < j < |ms| ensures ms[i].key != ms[j].key {
      AscendingApart(ms, i, j);
    }
  }

  lemma {:induction false} AscendingApart(ms: seq<Member>, i: nat, j: nat)
    requires Ascending(ms) && i < j < |ms|
    ensures ms[i].key != ms[j].key
  {
    hide Less;
    if i == 0 {
      HeadLeast(ms, j);
    } else {
      AscendingApart(ms[1..], i - 1, j - 1);
    }
  }

  lemma {:induction false} CountKept(norm: string -> string, ms: seq<Member>, rebuilt: seq<Member>)
    requires Ascending(rebuilt) && ScreenMembers(norm, ms, rebuilt).Ok?
    ensures |ScreenMembers(norm, ms, rebuilt).value| <= |rebuilt| + |ms|
    ensures |ScreenMembers(norm, ms, rebuilt).value| == |rebuilt| + |ms| <==> Clear(norm, ms, rebuilt, true)
    decreases ms
  {
    hide Screen, Find, Insert, Verbatim, Clear, Ascending;
    if ms == [] {
      NoMembers(norm, rebuilt);
    } else {
      var child := if Verbatim(ms[0].key) then ms[0].value else Screen(norm, ms[0].value).value;
      ClearStep(norm, ms, rebuilt, child, true);
      InsertAscending(rebuilt, FinalKey(norm, ms[0]), child);
      CountKept(norm, ms[1..], Insert(rebuilt, FinalKey(norm, ms[0]), child));
    }
  }

  /** What the caller sees of a value: the same shape with every text in normal form, verbatim
      subtrees untouched, and every other member under its normal key unless a verbatim member of
      that very name took the place. */
  ghost predicate Mirrors(norm: string -> string, value: Json, shown: Json)
    decreases value
  {
    match value
    case Text(s) => shown == Text(norm(s))
    case List(items) =>
      shown.List? && |shown.items| == |items| &&
      forall i :: 0 <= i < |items| ==> Mirrors(norm, items[i], shown.items[i])
    case Object(ms) =>
      shown.Object? &&
      (forall i :: 0 <= i < |ms| && Verbatim(ms[i].key) ==> Find(shown.members, ms[i].key) == Some(ms[i].value)) &&
      (forall i :: 0 <= i < |ms| && !Verbatim(ms[i].key) && !Overridden(ms, norm(ms[i].key)) ==>
         Find(shown.members, norm(ms[i].key)).Some? &&
         Mirrors(norm, ms[i].value, Find(shown.members, norm(ms[i].key)).value)) &&
      forall key :: Find(shown.members, key).Some? ==> exists i :: 0 <= i < |ms| && FinalKey(norm, ms[i]) == key
    case _ => shown == value
  }

  predicate Overridden(ms: seq<Member>, key: string) {
    Verbatim(key) && Find(ms, key).Some?
  }

  lemma {:induction false} ScreenMirrors(norm: string -> string, value: Json)
    requires Valid(value) && Screen(norm, value).Ok?
    ensures Mirrors(norm, value, Screen(norm, value).value)
    decreases value
  {
    hide Find, Insert, FinalKey, Verbatim, Ascending, ScreenItems, ScreenMembers, Overridden;
    if value.List? {
      ItemsMirror(norm, value.items);
    } else if value.Object? {
      var ms := value.members;
      var shown := ScreenMembers(norm, ms, []).value;
      forall i | 0 <= i < |ms| && Verbatim(ms[i].key) ensures Find(shown, ms[i].key) == Some(ms[i].value) {
        VerbatimUntouched(norm, ms, [], i);
      }
      forall i | 0 <= i < |ms| && !Verbatim(ms[i].key) && !Overridden(ms, norm(ms[i].key))
        ensures Find(shown, norm(ms[i].key)).Some?
        ensures Mirrors(norm, ms[i].value, Find(shown, norm(ms[i].key)).value)
      {
        OtherShown(norm, ms, [], i);
        ScreenMirrors(norm, ms[i].value);
      }
      forall key | Find(shown, key).Some? ensures exists i :: 0 <= i < |ms| && FinalKey(norm, ms[i]) == key {
        NothingMadeUp(norm, ms, [], key);
        NoneFound(key);
      }
    }
  }

  lemma {:induction false} NoneFound(key: string)
    ensures Find([], key) == None
  {
  }

  lemma {:induction false} ItemsMirror(norm: string -> string, items: seq<Json>)
    requires forall i :: 0 <= i < |items| ==> Valid(items[i])
    requires ScreenItems(norm, items).Ok?
    ensures |ScreenItems(norm, items).value| == |items|
    ensures forall i :: 0 <= i < |items| ==> Mirrors(norm, items[i], ScreenItems(norm, items).value[i])
    decreases items
  {
    hide Valid, Screen, Mirrors;
    if items != [] {
      ScreenMirrors(norm, items[0]);
      assert forall i :: 0 <= i < |items| - 1 ==> items[1..][i] == items[i + 1];
      ItemsMirror(norm, items[1..]);
      assert forall i :: 0 < i < |items| ==> items[i] == items[1..][i - 1];
    }
  }

  /** A key once taken keeps its value, unless it is the name of a verbatim member still to come. */
  lemma {:induction false} Stays(norm: string -> string, ms: seq<Member>, rebuilt: seq<Member>, key: string)
    requires ScreenMembers(norm, ms, rebuilt).Ok? && Find(rebuilt, key).Some?
    requires Verbatim(key) ==> Find(ms, key).None?
    ensures Find(ScreenMembers(norm, ms, rebuilt).value, key) == Find(rebuilt, key)
    decreases ms
  {
    hide Screen, Insert, Verbatim;
    if ms != [] {
      var child := if Verbatim(ms[0].key) then ms[0].value else Screen(norm, ms[0].value).value;
      FindInsert(rebuilt, FinalKey(norm, ms[0]), child, key);
      Stays(norm, ms[1..], Insert(rebuilt, FinalKey(norm, ms[0]), child), key);
    }
  }

  lemma {:induction false} VerbatimUntouched(norm: string -> string, ms: seq<Member>, rebuilt: seq<Member>, i: nat)
    requires Ascending(ms) && ScreenMembers(norm, ms, rebuilt).Ok? && i < |ms| && Verbatim(ms[i].key)
    ensures Find(ScreenMembers(norm, ms, rebuilt).value, ms[i].key) == Some(ms[i].value)
    decreases ms
  {
    hide Screen, Insert, Verbatim, Find, Less;
    if i == 0 {
      FindInsert(rebuilt, ms[0].key, ms[0].value, ms[0].key);
      HeadAbsent(ms);
      Stays(norm, ms[1..], Insert(rebuilt, ms[0].key, ms[0].value), ms[0].key);
    } else {
      var child := if Verbatim(ms[0].key) then ms[0].value else Screen(norm, ms[0].value).value;
      VerbatimUntouched(norm, ms[1..], Insert(rebuilt, FinalKey(norm, ms[0]), child), i - 1);
    }
  }

  /** The parameters, the transaction's name and the receipt come out byte for byte, and only these three are left
      as they are. */
  lemma {:induction false} NamedUntouched(norm: string -> string, ms: seq<Member>, key: string)
    requires Valid(Object(ms)) && Screen(norm, Object(ms)).Ok?
    requires Find(ms, key).Some?
    ensures key == "params" || key == "transaction_id" || key == "approval_receipt" ==>
      Find(Screen(norm, Object(ms)).value.members, key) == Find(ms, key)
    ensures Verbatim(key) ==> key == "params" || key == "transaction_id" || key == "approval_receipt"
  {
    VerbatimNamed(key);
    hide ScreenMembers, Verbatim, Find, Ascending;
    if Verbatim(key) {
      var i := FoundMember(ms, key);
      VerbatimUntouched(norm, ms, [], i);
    }
  }

  lemma {:induction false} VerbatimNamed(key: string)
    ensures Verbatim(key) <==> key == "params" || key == "transaction_id" || key == "approval_receipt"
  {
  }

  lemma {:induction false} OtherShown(norm: string -> string, ms: seq<Member>, rebuilt: seq<Member>, i: nat)
    requires ScreenMembers(norm, ms, rebuilt).Ok? && i < |ms| && !Verbatim(ms[i].key)
    requires !Overridden(ms, norm(ms[i].key))
    ensures Screen(norm, ms[i].value).Ok?
    ensures Find(ScreenMembers(norm, ms, rebuilt).value, norm(ms[i].key)) == Some(Screen(norm, ms[i].value).value)
    decreases ms
  {
    hide Screen, Insert, Verbatim;
    var child := if Verbatim(ms[0].key) then ms[0].value else Screen(norm, ms[0].value).value;
    var next := Insert(rebuilt, FinalKey(norm, ms[0]), child);
    if i == 0 {
      FindInsert(rebuilt, norm(ms[0].key), child, norm(ms[0].key));
      Stays(norm, ms[1..], next, norm(ms[0].key));
    } else {
      OtherShown(norm, ms[1..], next, i - 1);
    }
  }

  lemma {:induction false} NothingMadeUp(norm: string -> string, ms: seq<Member>, rebuilt: seq<Member>, key: string)
    requires ScreenMembers(norm, ms, rebuilt).Ok? && Find(ScreenMembers(norm, ms, rebuilt).value, key).Some?
    ensures Find(rebuilt, key).Some? || exists i :: 0 <= i < |ms| && FinalKey(norm, ms[i]) == key
    decreases ms
  {
    hide Screen, Insert, Verbatim, Find;
    if ms != [] {
      var child := if Verbatim(ms[0].key) then ms[0].value else Screen(norm, ms[0].value).value;
      var next := Insert(rebuilt, FinalKey(norm, ms[0]), child);
      NothingMadeUp(norm, ms[1..], next, key);
      FindInsert(rebuilt, FinalKey(norm, ms[0]), child, key);
      if i :| 0 <= i < |ms[1..]| && FinalKey(norm, ms[1..][i]) == key {
        assert ms[i + 1] == ms[1..][i];
      }
    }
  }

  /** The characters that the free-text normaliser deletes (`strip_dangerous_unicode`). */
  predicate IsDangerous(c: char) {
    || c <= '\U{8}' || c == '\U{B}' || c == '\U{C}' || '\U{E}' <= c <= '\U{1F}'
    || '\U{7F}' <= c <= '\U{9F}'
    || c == '\U{AD}' || c == '\U{34F}' || c == '\U{180E}'
    || '\U{200B}' <= c <= '\U{200F}' || '\U{2028}' <= c <= '\U{202E}' || '\U{2066}' <= c <= '\U{2069}' ||
      c == '\U{FEFF}'
    || '\U{2060}' <= c <= '\U{2064}'
    || '\U{E0000}' <= c <= '\U{E007F}'
    || '\U{E000}' <= c <= '\U{F8FF}' || '\U{F0000}' <= c <= '\U{FFFFD}' || '\U{100000}' <= c <= '\U{10FFFD}'
  }

  function StripDangerous(s: string): string {
    if s == "" then "" else (if IsDangerous(s[0]) then "" else [s[0]]) + StripDangerous(s[1..])
  }

  lemma {:induction false} StripTwice(s: string)
    ensures StripDangerous(StripDangerous(s)) == StripDangerous(s)
  {
    hide IsDangerous;
    if s != "" {
      StripTwice(s[1..]);
      var rest := StripDangerous(s[1..]);
      assert "" + rest == rest;
      if !IsDangerous(s[0]) {
        assert ([s[0]] + rest)[1..] == rest;
      }
    }
  }

  lemma {:induction false} StripKeeps(s: string)
    requires forall i :: 0 <= i < |s| ==> !IsDangerous(s[i])
    ensures StripDangerous(s) == s
  {
    hide IsDangerous;
    if s != "" {
      StripKeeps(s[1..]);
      assert [s[0]] + s[1..] == s;
    }
  }

  /** A key that reads "params" once an invisible control character is deleted. */
  const HIDDEN_PARAMS: string := "\U{1}params"

  lemma {:induction false} HiddenParams()
    ensures StripDangerous(HIDDEN_PARAMS) == "params" && StripDangerous("params") == "params"
    ensures Less(HIDDEN_PARAMS, "params") && !Verbatim(HIDDEN_PARAMS)
  {
    StripKeeps("params");
    assert HIDDEN_PARAMS[0] == '\U{1}' && HIDDEN_PARAMS[1..] == "params";
    assert "" + "params" == "params";
    assert HIDDEN_PARAMS[0] != "transaction_id"[0] && HIDDEN_PARAMS[0] != "approval_receipt"[0] &&
      HIDDEN_PARAMS[0] != "params"[0];
  }

  lemma {:induction false} StripIdempotent()
    ensures Idempotent(StripDangerous)
  {
    hide StripDangerous;
    forall s ensures StripDangerous(StripDangerous(s)) == StripDangerous(s) {
      StripTwice(s);
    }
  }

  /** A member can vanish although the screen reports success: its key, once the control character in front
      is deleted, is a verbatim name that comes after it. */
  lemma {:induction false} SilentDrop()
    ensures Idempotent(StripDangerous)
    ensures var value := Object([Member(HIDDEN_PARAMS, Null), Member("params", Bool(true))]);
      Valid(value) && Screen(StripDangerous, value) == Ok(Object([Member("params", Bool(true))]))
  {
    hide Less, StripDangerous, HIDDEN_PARAMS;
    StripIdempotent();
    HiddenParams();
    var norm := StripDangerous;
    var a, b := Member(HIDDEN_PARAMS, Null), Member("params", Bool(true));
    var ms := [a, b];
    assert Ascending(ms) by { assert Ascending(ms[1..]); }
    assert Valid(Object(ms));
    assert ms[1..] == [b] && [b][1..] == [];
    var first := Insert([], "params", Null);
    assert first == [Member("params", Null)];
    LessSelf("params");
    assert Insert(first, "params", Bool(true)) == [b];
    assert ScreenMembers(norm, [b], first) == Ok([b]);
    assert ScreenMembers(norm, ms, []) == Ok([b]);
  }

  // ----- the whole value -----

  /** No object outside the verbatim subtrees has a key that normalises to a verbatim key after it. */
  ghost predicate NothingDropped(norm: string -> string, value: Json)
    decreases value
  {
    match value
    case List(items) => forall i :: 0 <= i < |items| ==> NothingDropped(norm, items[i])
    case Object(ms) =>
      (forall i, j :: 0 <= i < j < |ms| && !Verbatim(ms[i].key) && Verbatim(ms[j].key) ==>
        norm(ms[i].key) != ms[j].key) &&
      forall i :: 0 <= i < |ms| && !Verbatim(ms[i].key) ==> NothingDropped(norm, ms[i].value)
    case _ => true
  }

  /** Every object outside the verbatim subtrees is shown with as many members as it has. */
  ghost predicate SameCounts(norm: string -> string, value: Json, shown: Json)
    decreases value
  {
    match value
    case List(items) =>
      shown.List? && |shown.items| == |items| && forall i :: 0 <= i < |items| ==>
        SameCounts(norm, items[i], shown.items[i])
    case Object(ms) =>
      shown.Object? && |shown.members| == |ms| &&
      forall i :: 0 <= i < |ms| && !Verbatim(ms[i].key) ==>
        Find(shown.members, norm(ms[i].key)).Some? &&
        SameCounts(norm, ms[i].value, Find(shown.members, norm(ms[i].key)).value)
    case _ => true
  }

  /** Nothing is dropped anywhere in the value exactly when no key normalises to a verbatim key that
      follows it in its object. */
  lemma {:induction false} NothingDroppedIff(norm: string -> string, value: Json)
    requires Valid(value) && Screen(norm, value).Ok?
    ensures SameCounts(norm, value, Screen(norm, value).value) <==> NothingDropped(norm, value)
    decreases value
  {
    hide Find, Insert, Verbatim, Ascending, ScreenItems, ScreenMembers;
    if value.List? {
      ItemsDroppedIff(norm, value.items);
    } else if value.Object? {
      ObjectDroppedIff(norm, value.members);
    }
  }

  lemma {:induction false} ItemsDroppedIff(norm: string -> string, items: seq<Json>)
    requires forall i :: 0 <= i < |items| ==> Valid(items[i])
    requires ScreenItems(norm, items).Ok?
    ensures |ScreenItems(norm, items).value| == |items|
    ensures (forall i :: 0 <= i < |items| ==> SameCounts(norm, items[i], ScreenItems(norm, items).value[i])) <==>
      forall i :: 0 <= i < |items| ==> NothingDropped(norm, items[i])
    decreases items
  {
    hide Valid, Screen, SameCounts, NothingDropped;
    if items != [] {
      var rest, shown := items[1..], ScreenItems(norm, items).value;
      NothingDroppedIff(norm, items[0]);
      assert forall i :: 0 <= i < |rest| ==> rest[i] == items[i + 1];
      ItemsDroppedIff(norm, rest);
      var shown' := ScreenItems(norm, rest).value;
      assert forall i :: 0 <= i < |rest| ==> shown'[i] == shown[i + 1];
      assert forall i :: 0 < i < |items| ==> items[i] == rest[i - 1] && shown[i] == shown'[i - 1];
    }
  }

  lemma {:induction false} ObjectDroppedIff(norm: string -> string, ms: seq<Member>)
    requires Valid(Object(ms)) && Screen(norm, Object(ms)).Ok?
    ensures SameCounts(norm, Object(ms), Screen(norm, Object(ms)).value) <==> NothingDropped(norm, Object(ms))
    decreases ms
  {
    hide Find, Insert, Verbatim, Ascending, ScreenMembers, Overridden;
    MembersKeptIff(norm, ms);
    var shown := Screen(norm, Object(ms)).value.members;
    if |shown| == |ms| {
      forall i | 0 <= i < |ms| && !Verbatim(ms[i].key)
        ensures Find(shown, norm(ms[i].key)).Some?
        ensures SameCounts(norm, ms[i].value, Find(shown, norm(ms[i].key)).value) <==> NothingDropped(norm, ms[i].value)
      {
        NotOverridden(norm, ms, i);
        OtherShown(norm, ms, [], i);
        NothingDroppedIff(norm, ms[i].value);
      }
    }
  }

  /** Where nothing is dropped, no verbatim member stands in the way of a normalised key. */
  lemma {:induction false} NotOverridden(norm: string -> string, ms: seq<Member>, i: nat)
    requires Valid(Object(ms)) && Screen(norm, Object(ms)).Ok? && i < |ms| && !Verbatim(ms[i].key)
    requires forall i, j :: 0 <= i < j < |ms| && !Verbatim(ms[i].key) && Verbatim(ms[j].key) ==>
      norm(ms[i].key) != ms[j].key
    ensures !Overridden(ms, norm(ms[i].key))
  {
    hide Insert, Verbatim, Ascending, ScreenMembers, Find, FinalKey;
    var key := norm(ms[i].key);
    RefusedIff(norm, Object(ms));
    if Verbatim(key) && Find(ms, key).Some? {
      var j := FoundMember(ms, key);
      assert i != j;
      LaterClash(norm, ms, i, j);
    }
  }

  lemma {:induction false} LaterClash(norm: string -> string, ms: seq<Member>, i: nat, j: nat)
    requires Apart(norm, ms, false) && i < |ms| && j < |ms| && !Verbatim(ms[i].key) && Verbatim(ms[j].key)
    ensures j < i ==> norm(ms[i].key) != ms[j].key
  {
  }
}
