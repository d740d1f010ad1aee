/** Accounts and license keys: the user manager's creation rules, the
    serial-key formatting done on save, the validity window, and the key
    store with its one-user-one-key relation. */
module Accounts {
  import opened Wrappers
  import opened Text
  import opened Seqs

  type UserId = nat

  /** A point in time; only the order of instants matters to the model. */
  type Time = int

  // ---------------------------------------------------------------------
  // Users

  datatype User = User(phone: string, isStaff: bool, isSuperuser: bool)

  /** The optional keyword arguments a caller passes to the manager; `None`
      means the caller did not supply the field. */
  datatype ExtraFields = ExtraFields(isStaff: Option<bool>, isSuperuser: Option<bool>)

  datatype AccountError =
    | PhoneRequired   // the manager's own check
    | PhoneTaken      // the unique constraint on the phone column

  /** The manager's `create_user`: refuses an empty phone number before
      anything is stored, and the table refuses a phone number already in
      use. Flags the caller leaves out take the model's default, false. */
  function CreateUser(users: map<UserId, User>, id: UserId, phone: string, extra: ExtraFields)
    : (r: Result<map<UserId, User>, AccountError>)
    requires id !in users
    ensures r == Failure(PhoneRequired) <==> phone == []
    ensures r.Success? <==> phone != [] && forall v :: v in users ==> users[v].phone != phone
    ensures r.Success? ==> r.value.Keys == users.Keys + {id}
    ensures r.Success? ==> forall v :: v in users ==> r.value[v] == users[v]
    ensures r.Success? ==> r.value[id].phone == phone
    ensures r.Success? ==> r.value[id].isStaff == (extra.isStaff == Some(true))
    ensures r.Success? ==> r.value[id].isSuperuser == (extra.isSuperuser == Some(true))
  {
    if phone == [] then Failure(PhoneRequired)
    else if exists v :: v in users && users[v].phone == phone then Failure(PhoneTaken)
    else Success(users[id := User(phone, extra.isStaff.GetOr(false), extra.isSuperuser.GetOr(false))])
  }

  /** Fills in a field the caller left out, like Python's `dict.setdefault`. */
  function SetDefault(field: Option<bool>, default: bool): (r: Option<bool>)
    ensures r.Some?
    ensures field.Some? ==> r == field
    ensures field.None? ==> r == Some(default)
  {
    if field.Some? then field else Some(default)
  }

  /** The manager's `create_superuser`: both flags default to true, but an
      explicit value from the caller wins. */
  function CreateSuperuser(users: map<UserId, User>, id: UserId, phone: string, extra: ExtraFields)
    : (r: Result<map<UserId, User>, AccountError>)
    requires id !in users
    ensures r == Failure(PhoneRequired) <==> phone == []
    ensures r.Success? <==> phone != [] && forall v :: v in users ==> users[v].phone != phone
    ensures r.Success? ==> r.value.Keys == users.Keys + {id}
    ensures r.Success? ==> forall v :: v in users ==> r.value[v] == users[v]
    ensures r.Success? ==> r.value[id].phone == phone
    ensures r.Success? ==> r.value[id].isStaff == extra.isStaff.GetOr(true)
    ensures r.Success? ==> r.value[id].isSuperuser == extra.isSuperuser.GetOr(true)
  {
    CreateUser(users, id, phone, ExtraFields(SetDefault(extra.isStaff, true), SetDefault(extra.isSuperuser, true)))
  }

  /** A superuser created without explicit flags is staff and superuser;
      one created with an explicit false keeps it. */
  lemma SuperuserDefaults(users: map<UserId, User>, id: UserId, phone: string)
    requires id !in users
    requires phone != [] && forall v :: v in users ==> users[v].phone != phone
    ensures var r := CreateSuperuser(users, id, phone, ExtraFields(None, None));
            r.Success? && r.value[id].isStaff && r.value[id].isSuperuser
    ensures var r := CreateSuperuser(users, id, phone, ExtraFields(Some(false), Some(false)));
            r.Success? && !r.value[id].isStaff && !r.value[id].isSuperuser
  {
  }

  // ---------------------------------------------------------------------
  // Serial-key text

  predicate IsLowerHex(c: char) {
    ('0' <= c <= '9') || ('a' <= c <= 'f')
  }

  predicate IsUpperHex(c: char) {
    ('0' <= c <= '9') || ('A' <= c <= 'F')
  }

  /** The text `str(uuid.uuid4())` produces: 32 lower-case hex digits in
      groups of 8-4-4-4-12 separated by dashes. */
  predicate IsUuidText(u: string) {
    && |u| == 36
    && (forall i :: 0 <= i < 36 ==>
          if i == 8 || i == 13 || i == 18 || i == 23 then u[i] == '-' else IsLowerHex(u[i]))
  }

  /** Four groups of four upper-case hex digits joined by dashes. */
  predicate IsKeyShape(k: string) {
    && |k| == 19
    && (forall i :: 0 <= i < 19 ==> if i % 5 == 4 then k[i] == '-' else IsUpperHex(k[i]))
  }

  /** Python's `s[i:j]` for 0 <= i <= j: the bounds are clamped to the end. */
  function Slice(s: string, i: nat, j: nat): (r: string)
    requires i <= j
    ensures |r| <= j - i
    ensures j <= |s| ==> r == s[i..j]
    ensures forall c :: c in r ==> c in s
  {
    if j <= |s| then s[i..j] else if i <= |s| then s[i..] else []
  }

  lemma SliceSplit(s: string, i: nat, j: nat, k: nat)
    requires i <= j <= k
    ensures Slice(s, i, j) + Slice(s, j, k) == Slice(s, i, k)
  {
  }

  /** The key text `SerialKey.save` builds from a uuid's text: dashes removed,
      upper-cased, the first 16 characters, regrouped as four blocks of four. */
  function FormatKey(uuid: string): (key: string)
    ensures |key| <= 19
    ensures |StripDashes(uuid)| >= 16 ==> |key| == 19
  {
    var raw := Slice(Upper(StripDashes(uuid)), 0, 16);
    assert |StripDashes(uuid)| >= 16 ==> |raw| == 16;
    Slice(raw, 0, 4) + "-" + Slice(raw, 4, 8) + "-" + Slice(raw, 8, 12) + "-" + Slice(raw, 12, 16)
  }

  lemma UpperKeepsDashFree(s: string)
    requires '-' !in s
    ensures '-' !in Upper(s)
  {
    var u := Upper(s);
    forall i | 0 <= i < |u| ensures u[i] != '-' {
      assert s[i] in s;
    }
  }

  function NotDash(c: char): bool {
    c != '-'
  }

  /** Removing the dashes, as `SerialKey.save` does, is filtering on "not a
      dash": every other character is kept, in order and with its
      multiplicity. */
  lemma {:induction false} StripDashesIsFilter(s: string)
    ensures StripDashes(s) == Filter(s, NotDash)
  {
    if |s| > 0 {
      StripDashesIsFilter(s[1..]);
    }
  }

  /** Dropping the dashes of `a + "-" + b` when `b` has none. */
  lemma StripDashesJoin(a: string, b: string)
    requires '-' !in b
    ensures StripDashes(a + "-" + b) == StripDashes(a) + b
  {
    var dash: string := "-";
    assert dash[0] == '-' && dash[1..] == [];
    assert StripDashes(dash) == [];
    StripDashesAppend(a, dash);
    StripDashesAppend(a + dash, b);
  }

  /** Removing the dashes from a generated key gives back the first 16
      characters of the dash-free, upper-cased uuid, in order. */
  lemma FormatKeyDigits(uuid: string)
    ensures StripDashes(FormatKey(uuid)) == Slice(Upper(StripDashes(uuid)), 0, 16)
  {
    var full := Upper(StripDashes(uuid));
    UpperKeepsDashFree(StripDashes(uuid));
    var raw := Slice(full, 0, 16);
    var a, b, c, d := Slice(raw, 0, 4), Slice(raw, 4, 8), Slice(raw, 8, 12), Slice(raw, 12, 16);
    StripDashesJoin(a + "-" + b + "-" + c, d);
    StripDashesJoin(a + "-" + b, c);
    StripDashesJoin(a, b);
    SliceSplit(raw, 0, 4, 8);
    SliceSplit(raw, 0, 8, 12);
    SliceSplit(raw, 0, 12, 16);
  }

  /** Between two of its dashes, a uuid's text holds hex digits only. */
  lemma UuidGroupDashFree(u: string, lo: nat, hi: nat)
    requires IsUuidText(u)
    requires lo <= hi <= 36
    requires hi <= 8 || (9 <= lo && hi <= 13) || (14 <= lo && hi <= 18) || (19 <= lo && hi <= 23) || 24 <= lo
    ensures '-' !in u[lo..hi]
  {
    forall i | lo <= i < hi ensures u[i] != '-' {
      assert IsLowerHex(u[i]);
    }
  }

  /** A uuid's text has 32 hex digits once its dashes are gone. */
  lemma UuidDigits(u: string)
    requires IsUuidText(u)
    ensures |StripDashes(u)| == 32
    ensures forall i :: 0 <= i < 32 ==> IsLowerHex(StripDashes(u)[i])
  {
    var p1, p2, p3, p4, p5 := u[..8], u[9..13], u[14..18], u[19..23], u[24..];
    assert u == p1 + "-" + p2 + "-" + p3 + "-" + p4 + "-" + p5;
    UuidGroupDashFree(u, 0, 8);
    UuidGroupDashFree(u, 9, 13);
    UuidGroupDashFree(u, 14, 18);
    UuidGroupDashFree(u, 19, 23);
    UuidGroupDashFree(u, 24, 36);
    StripDashesJoin(p1 + "-" + p2 + "-" + p3 + "-" + p4, p5);
    StripDashesJoin(p1 + "-" + p2 + "-" + p3, p4);
    StripDashesJoin(p1 + "-" + p2, p3);
    StripDashesJoin(p1, p2);
    var digits := p1 + p2 + p3 + p4 + p5;
    assert StripDashes(u) == digits;
    forall i | 0 <= i < 32 ensures IsLowerHex(digits[i]) {
      if i < 8 { assert digits[i] == u[i]; }
      else if i < 12 { assert digits[i] == u[i + 1]; }
      else if i < 16 { assert digits[i] == u[i + 2]; }
      else if i < 20 { assert digits[i] == u[i + 3]; }
      else { assert digits[i] == u[i + 4]; }
    }
  }

  /** A key generated from a uuid is exactly 19 characters: four groups of
      four upper-case hex digits joined by dashes. */
  lemma FormatKeyShape(u: string)
    requires IsUuidText(u)
    ensures IsKeyShape(FormatKey(u))
  {
    UuidDigits(u);
    var full := Upper(StripDashes(u));
    var raw := Slice(full, 0, 16);
    assert |raw| == 16;
    assert forall i :: 0 <= i < 16 ==> IsUpperHex(raw[i]) by {
      forall i | 0 <= i < 16 ensures IsUpperHex(raw[i]) {
        assert raw[i] == UpperChar(StripDashes(u)[i]);
        assert IsLowerHex(StripDashes(u)[i]);
      }
    }
    var key := FormatKey(u);
    assert key == raw[0..4] + "-" + raw[4..8] + "-" + raw[8..12] + "-" + raw[12..16];
    forall i | 0 <= i < 19 ensures if i % 5 == 4 then key[i] == '-' else IsUpperHex(key[i]) {
      if i < 4 { assert key[i] == raw[i]; }
      else if i == 4 || i == 9 || i == 14 { }
      else if i < 9 { assert key[i] == raw[i - 1]; }
      else if i < 14 { assert key[i] == raw[i - 2]; }
      else { assert key[i] == raw[i - 3]; }
    }
  }

  /** The key `SerialKey.save` stores: one is generated from `uuid` only when
      the record's key is still empty. */
  function KeyOnSave(key: string, uuid: string): (r: string)
    ensures key != [] ==> r == key
    ensures key == [] && IsUuidText(uuid) ==> IsKeyShape(r)
    ensures key == [] ==> StripDashes(r) == Slice(Upper(StripDashes(uuid)), 0, 16)
  {
    if key == [] then
      FormatKeyShape'(uuid);
      FormatKeyDigits(uuid);
      FormatKey(uuid)
    else key
  }

  /** `FormatKeyShape` when the uuid is well formed, nothing otherwise. */
  lemma FormatKeyShape'(u: string)
    ensures IsUuidText(u) ==> IsKeyShape(FormatKey(u))
  {
    if IsUuidText(u) {
      FormatKeyShape(u);
    }
  }

  // ---------------------------------------------------------------------
  // License keys

  /** A stored serial key, less its key text (the store's index). The
      `allowInventory` switch is read by the inventory permission but is not
      declared on the key model; it is modelled as a field here. */
  datatype KeyRecord = KeyRecord(owner: Option<UserId>, start: Time, end: Time, allowInventory: bool)

  /** The serial-key table, indexed by its unique key text. */
  type KeyStore = map<string, KeyRecord>

  /** `SerialKey.is_valid`, with the clock reading passed in. */
  predicate IsValid(k: KeyRecord, now: Time) {
    k.start <= now <= k.end
  }

  /** Both ends of the window are valid instants, and so is everything in
      between; a key whose window is reversed is never valid. */
  lemma ValidWindow(k: KeyRecord)
    ensures k.start <= k.end ==> IsValid(k, k.start) && IsValid(k, k.end)
    ensures k.start > k.end ==> forall now :: !IsValid(k, now)
    ensures forall t1, t2, t3 :: t1 <= t2 <= t3 && IsValid(k, t1) && IsValid(k, t3) ==> IsValid(k, t2)
  {
  }

  /** The one-to-one user field: no user owns two keys (and a key, holding an
      `Option`, has at most one owner). */
  predicate OneKeyPerUser(store: KeyStore) {
    forall k1, k2 :: k1 in store && k2 in store && store[k1].owner.Some? && store[k1].owner == store[k2].owner
      ==> k1 == k2
  }

  predicate OwnsKey(store: KeyStore, u: UserId) {
    exists k :: k in store && store[k].owner == Some(u)
  }

  /** The reverse one-to-one accessor `user.serial_key`: the key the user
      owns, if any. */
  function KeyOf(store: KeyStore, u: UserId): (r: Option<string>)
    requires OneKeyPerUser(store)
    ensures r.Some? <==> OwnsKey(store, u)
    ensures r.Some? ==> r.value in store && store[r.value].owner == Some(u)
  {
    if OwnsKey(store, u) then
      var k :| k in store && store[k].owner == Some(u);
      Some(k)
    else None
  }
}
