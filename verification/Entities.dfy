/** The errors services raise, the Member entity, and the checks made on input before a write. */
module Entities {
  import opened Basics
  import opened Phones
  import opened Tables

  datatype Denial = MissingHeader | NoSuchClass | NoAccess

  datatype Error =
    | ClassNotFound(classId: Id)
    | MemberNotFound(memberId: Id)
    | ServantMustBeAUser(servantId: Id)
    | LeaderMustBeAUser(leaderId: Id)
    | BadPhone(input: string)
    | Unauthorized
    | Forbidden(denial: Denial)
    | Store(error: StoreError)

  datatype Member = Member(
    id: Id, classId: Id, userId: Option<Id>, fullName: string, phone: Option<Phone>, isActive: bool)

  datatype RawMember = RawMember(fullName: string, phone: Option<string>, userId: Option<Id>)

  /** An update body: an absent field is None; a phone may be present and null. */
  datatype MemberInput = MemberInput(fullName: Option<string>, phone: Option<Option<string>>, isActive: Option<bool>)

  /** `Member.fromPrisma`: re-parses the stored phone, so reading a row can throw. */
  function FromRow(id: Id, row: MemberRow): Result<Member, Error> {
    if row.phone.None? || row.phone.value == "" then
      Ok(Member(id, row.classId, row.userId, row.fullName, None, row.isActive))
    else
      match Parse(row.phone.value)
      case Ok(phone) => Ok(Member(id, row.classId, row.userId, row.fullName, Some(phone), row.isActive))
      case Err(e) => Err(BadPhone(e.input))
  }

  /** The row an input becomes; an absent, null or empty phone is stored as null. */
  function RowFor(classId: Id, raw: RawMember): Result<MemberRow, Error> {
    if raw.phone.None? || raw.phone.value == "" then
      Ok(MemberRow(classId, raw.userId, raw.fullName, None, true))
    else
      match Parse(raw.phone.value)
      case Ok(phone) => Ok(MemberRow(classId, raw.userId, raw.fullName, Some(phone.value), true))
      case Err(e) => Err(BadPhone(e.input))
  }

  /** The rows of a batch, or the error of its first invalid phone. */
  function RowsFor(classId: Id, raws: seq<RawMember>): Result<seq<MemberRow>, Error> {
    if raws == [] then Ok([])
    else
      match RowFor(classId, raws[0])
      case Err(e) => Err(e)
      case Ok(row) =>
        match RowsFor(classId, raws[1..])
        case Err(e) => Err(e)
        case Ok(rows) => Ok([row] + rows)
  }

  /** The patch an update body becomes; here an empty phone is parsed, and rejected. */
  function PatchFor(input: MemberInput): Result<MemberPatch, Error> {
    if input.phone.Some? && input.phone.value.Some? then
      match Parse(input.phone.value.value)
      case Ok(phone) => Ok(MemberPatch(input.fullName, Some(Some(phone.value)), input.isActive))
      case Err(e) => Err(BadPhone(e.input))
    else Ok(MemberPatch(input.fullName, input.phone, input.isActive))
  }

  /** The input of an optional phone is stored without complaint. */
  predicate Storable(phone: Option<string>) {
    phone.Some? && phone.value != "" ==> Parse(phone.value).Ok?
  }

  /** An input is refused exactly for a phone that does not parse, and the error carries that phone. */
  lemma RowRefused(classId: Id, raw: RawMember)
    ensures RowFor(classId, raw).Ok? <==> Storable(raw.phone)
    ensures !Storable(raw.phone) ==> RowFor(classId, raw) == Err(BadPhone(raw.phone.value))
  {
  }

  /** The first invalid phone of a batch is at index i. */
  ghost predicate FirstInvalid(raws: seq<RawMember>, i: nat)
    requires i < |raws|
  {
    !Storable(raws[i].phone) && forall j | 0 <= j < i :: Storable(raws[j].phone)
  }

  /** A batch is refused with its first invalid phone. */
  lemma {:induction false} FirstInvalidReported(classId: Id, raws: seq<RawMember>)
    ensures RowsFor(classId, raws).Ok? <==> forall i | 0 <= i < |raws| :: Storable(raws[i].phone)
    ensures RowsFor(classId, raws).Err? ==>
              exists i | 0 <= i < |raws| ::
                FirstInvalid(raws, i) && RowsFor(classId, raws).error == BadPhone(raws[i].phone.value)
  {
    if raws != [] {
      RowRefused(classId, raws[0]);
      FirstInvalidReported(classId, raws[1..]);
      assert forall i | 0 <= i < |raws| - 1 :: raws[1..][i] == raws[i + 1];
      if !Storable(raws[0].phone) {
        assert FirstInvalid(raws, 0);
      } else if RowsFor(classId, raws[1..]).Err? {
        var i :| 0 <= i < |raws[1..]| && FirstInvalid(raws[1..], i)
          && RowsFor(classId, raws[1..]).error == BadPhone(raws[1..][i].phone.value);
        FirstInvalidNext(raws, i);
      } else {
        assert forall i | 1 <= i < |raws| :: raws[i] == raws[1..][i - 1];
      }
    }
  }

  lemma FirstInvalidNext(raws: seq<RawMember>, i: nat)
    requires raws != [] && Storable(raws[0].phone) && i < |raws[1..]| && FirstInvalid(raws[1..], i)
    ensures FirstInvalid(raws, i + 1)
  {
    forall j | 0 <= j < i + 1 ensures Storable(raws[j].phone) {
      if j > 0 {
        assert raws[j] == raws[1..][j - 1];
      }
    }
  }

  ghost predicate CanonicalPhone(phone: Option<string>) {
    phone.Some? ==> MatchesE164(phone.value)
  }

  /** A row with a canonical or null phone always reads back, with exactly the stored phone. */
  lemma CanonicalRowReads(id: Id, row: MemberRow)
    requires CanonicalPhone(row.phone)
    ensures FromRow(id, row).Ok?
    ensures var m := FromRow(id, row).value;
            && (m.phone.Some? <==> row.phone.Some?)
            && (m.phone.Some? ==> m.phone.value.value == row.phone.value)
            && m == Member(id, row.classId, row.userId, row.fullName, m.phone, row.isActive)
  {
    if row.phone.Some? {
      CanonicalIsFixed(row.phone.value, DEFAULT_COUNTRY_CODE);
    }
  }

  /** A batch becomes rows exactly when every one of its inputs does, row by row. */
  lemma {:induction false} RowsForAll(classId: Id, raws: seq<RawMember>)
    ensures RowsFor(classId, raws).Ok? <==> forall i | 0 <= i < |raws| :: RowFor(classId, raws[i]).Ok?
    ensures RowsFor(classId, raws).Ok? ==>
              var rows := RowsFor(classId, raws).value;
              |rows| == |raws| && forall i | 0 <= i < |raws| :: RowFor(classId, raws[i]) == Ok(rows[i])
    ensures RowsFor(classId, raws).Err? ==> RowsFor(classId, raws).error.BadPhone?
  {
    if raws != [] {
      RowsForAll(classId, raws[1..]);
      if forall i | 0 <= i < |raws| :: RowFor(classId, raws[i]).Ok? {
        assert RowFor(classId, raws[0]).Ok?;
        assert forall i | 0 <= i < |raws[1..]| :: raws[1..][i] == raws[i + 1];
      }
    }
  }
}
