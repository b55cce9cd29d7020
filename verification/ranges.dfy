/** Per-population reference ranges derived from one row
    (`UserType`, `addRangeIfNotEmpty`, `createReferenceRanges`). */
module Ranges {
  import opened JsText
  import opened Columns
  import opened Seqs

  /** `UserType`: the closed set of population categories, in declaration order. */
  datatype UserType =
    | AdultMale | AdultFemale | Newborn | Infant | Toddler | Child
    | Adolescent | AdolescentMale | AdolescentFemale | Geriatric

  /** One reference range as stored under `master_test.referenceRanges`. */
  datatype ReferenceRange = ReferenceRange(lowerLimit: string, upperLimit: string, userType: UserType)

  /** The order in which `createReferenceRanges` checks the categories (which
      differs from the declaration order: the two sexed adolescent categories
      come before the combined one). */
  const CheckOrder: seq<UserType> := [
    AdultMale, AdultFemale, Newborn, Infant, Toddler, Child,
    AdolescentMale, AdolescentFemale, Adolescent, Geriatric
  ]

  /** `createReferenceRanges` checks every category. */
  lemma EveryCategoryChecked(u: UserType)
    ensures u in CheckOrder
  {
    match u
    case AdultMale => assert CheckOrder[0] == u;
    case AdultFemale => assert CheckOrder[1] == u;
    case Newborn => assert CheckOrder[2] == u;
    case Infant => assert CheckOrder[3] == u;
    case Toddler => assert CheckOrder[4] == u;
    case Child => assert CheckOrder[5] == u;
    case AdolescentMale => assert CheckOrder[6] == u;
    case AdolescentFemale => assert CheckOrder[7] == u;
    case Adolescent => assert CheckOrder[8] == u;
    case Geriatric => assert CheckOrder[9] == u;
  }

  /** No category is checked twice. */
  lemma CheckOrderDistinct()
    ensures Distinct(CheckOrder)
  {
  }

  /** The row field holding a category's lower limit. */
  function LowKey(u: UserType): string {
    match u
    case AdultMale => "adultMaleLow"
    case AdultFemale => "adultFemaleLow"
    case Newborn => "newbornLow"
    case Infant => "infantLow"
    case Toddler => "toddlerLow"
    case Child => "childLow"
    case Adolescent => "adolescentLow"
    case AdolescentMale => "adolescentMaleLow"
    case AdolescentFemale => "adolescentFemaleLow"
    case Geriatric => "geriatricLow"
  }

  /** The row field holding a category's upper limit. */
  function HighKey(u: UserType): string {
    match u
    case AdultMale => "adultMaleHi"
    case AdultFemale => "adultFemaleHi"
    case Newborn => "newbornHi"
    case Infant => "infantHi"
    case Toddler => "toddlerHi"
    case Child => "childHi"
    case Adolescent => "adolescentHi"
    case AdolescentMale => "adolescentMaleHi"
    case AdolescentFemale => "adolescentFemaleHi"
    case Geriatric => "geriatricHi"
  }

  /** `(lower && lower.trim()) || (upper && upper.trim())` for one category. */
  predicate Included(row: Row, u: UserType) {
    !IsBlank(Field(row, LowKey(u))) || !IsBlank(Field(row, HighKey(u)))
  }

  /** The range pushed for a category: the limits as written, `''` when absent. */
  function RangeOf(row: Row, u: UserType): ReferenceRange {
    ReferenceRange(Field(row, LowKey(u)), Field(row, HighKey(u)), u)
  }

  /** `addRangeIfNotEmpty(ranges, lower, upper, userType)`: the ranges so far
      are kept, and one range is added, with the limits as written, exactly
      when one of the limits is not blank. */
  function AddRangeIfNotEmpty(ranges: seq<ReferenceRange>, lower: string, upper: string, u: UserType)
    : (r: seq<ReferenceRange>)
    ensures |ranges| <= |r| <= |ranges| + 1 && r[..|ranges|] == ranges
    ensures |r| == |ranges| + 1 <==> !IsBlank(lower) || !IsBlank(upper)
    ensures |r| == |ranges| + 1 ==> r[|ranges|] == ReferenceRange(lower, upper, u)
  {
    if !IsBlank(lower) || !IsBlank(upper) then ranges + [ReferenceRange(lower, upper, u)] else ranges
  }

  /** The ranges collected by one `addRangeIfNotEmpty` call per category of
      `us`, in order: the left fold the body of `createReferenceRanges` spells
      out for `CheckOrder`. */
  function Pushes(row: Row, us: seq<UserType>): seq<ReferenceRange>
  {
    if |us| == 0 then []
    else
      var u := us[|us| - 1];
      AddRangeIfNotEmpty(Pushes(row, us[..|us| - 1]), Field(row, LowKey(u)), Field(row, HighKey(u)), u)
  }

  /** `createReferenceRanges(record)`. */
  function CreateReferenceRanges(row: Row): seq<ReferenceRange>
  {
    Pushes(row, CheckOrder)
  }

  /** An independent reading of the same thing: keep, in order, the range of
      every category of `us` that is included. */
  function Selected(row: Row, us: seq<UserType>): (r: seq<ReferenceRange>)
    ensures |r| <= |us|
  {
    if |us| == 0 then [] else Kept(row, us[0]) + Selected(row, us[1..])
  }

  /** The range of one category if it is included, nothing otherwise. */
  function Kept(row: Row, u: UserType): seq<ReferenceRange> {
    if Included(row, u) then [RangeOf(row, u)] else []
  }

  function Categories(r: seq<ReferenceRange>): (cs: seq<UserType>)
    ensures |cs| == |r|
    ensures forall i :: 0 <= i < |r| ==> cs[i] == r[i].userType
  {
    if |r| == 0 then [] else [r[0].userType] + Categories(r[1..])
  }

  lemma {:induction false} SelectedAppend(row: Row, us: seq<UserType>, u: UserType)
    ensures Selected(row, us + [u]) == Selected(row, us) + Kept(row, u)
  {
    if |us| == 0 {
      assert us + [u] == [u];
    } else {
      var t := us + [u];
      assert t[0] == us[0] && t[1..] == us[1..] + [u];
      SelectedAppend(row, us[1..], u);
      AppendAssoc(Kept(row, us[0]), Selected(row, us[1..]), Kept(row, u));
    }
  }

  /** The push loop and the selection agree on every list of categories. */
  lemma {:induction false} PushesAreSelected(row: Row, us: seq<UserType>)
    ensures Pushes(row, us) == Selected(row, us)
  {
    if |us| > 0 {
      var init := us[..|us| - 1];
      assert init + [us[|us| - 1]] == us;
      PushOne(row, us);
      SelectedAppend(row, init, us[|us| - 1]);
      PushesAreSelected(row, init);
    }
  }

  /** One more category adds its range when it is included. */
  lemma PushOne(row: Row, us: seq<UserType>)
    requires |us| > 0
    ensures Pushes(row, us) == Pushes(row, us[..|us| - 1]) + Kept(row, us[|us| - 1])
  {
  }

  /** What the selection holds: only included categories of `us`, each with
      the limits as written; every included category of `us`; and the
      categories in the order of `us`. */
  lemma SelectedContents(row: Row, us: seq<UserType>)
    ensures forall i :: 0 <= i < |Selected(row, us)| ==>
              Selected(row, us)[i] == RangeOf(row, Selected(row, us)[i].userType)
              && Included(row, Selected(row, us)[i].userType)
    ensures forall u :: u in us ==>
              (Included(row, u) <==> u in Categories(Selected(row, us)))
    ensures Subsequence(Categories(Selected(row, us)), us)
  {
    SelectedRanges(row, us);
    forall u | u in us
      ensures Included(row, u) <==> u in Categories(Selected(row, us))
    {
      if Included(row, u) {
        SelectedCategories(row, us, u);
      }
    }
    SelectedOrder(row, us);
  }

  /** The head of a non-empty selection list. */
  lemma SelectedHead(row: Row, us: seq<UserType>)
    requires |us| > 0
    ensures Included(row, us[0]) ==> Selected(row, us) == [RangeOf(row, us[0])] + Selected(row, us[1..])
    ensures !Included(row, us[0]) ==> Selected(row, us) == Selected(row, us[1..])
  {
    assert [] + Selected(row, us[1..]) == Selected(row, us[1..]);
  }

  lemma {:induction false} SelectedRanges(row: Row, us: seq<UserType>)
    ensures forall i :: 0 <= i < |Selected(row, us)| ==>
              Selected(row, us)[i] == RangeOf(row, Selected(row, us)[i].userType)
              && Included(row, Selected(row, us)[i].userType)
  {
    if |us| > 0 {
      SelectedHead(row, us);
      SelectedRanges(row, us[1..]);
    }
  }

  /** Every included category of `us` is selected. */
  lemma {:induction false} SelectedCategories(row: Row, us: seq<UserType>, u: UserType)
    requires u in us && Included(row, u)
    ensures u in Categories(Selected(row, us))
  {
    var rest := Selected(row, us[1..]);
    if Included(row, us[0]) {
      var r := [RangeOf(row, us[0])] + rest;
      assert Categories(r) == [us[0]] + Categories(rest) by {
        assert Categories(r)[1..] == Categories(rest);
      }
      if u != us[0] {
        SelectedCategories(row, us[1..], u);
      }
    } else {
      SelectedCategories(row, us[1..], u);
    }
    SelectedHead(row, us);
  }

  lemma {:induction false} SelectedOrder(row: Row, us: seq<UserType>)
    ensures Subsequence(Categories(Selected(row, us)), us)
  {
    if |us| > 0 {
      var rest := Selected(row, us[1..]);
      SelectedOrder(row, us[1..]);
      if Included(row, us[0]) {
        var r := [RangeOf(row, us[0])] + rest;
        assert Categories(r)[1..] == Categories(rest) && Categories(r)[0] == us[0];
        SelectedHead(row, us);
      } else {
        SelectedHead(row, us);
        SubsequenceSkip(Categories(rest), us);
      }
    }
  }

  /** `createReferenceRanges(record)`: a category is stored exactly when one of
      its limits is non-blank; the stored limits are the row's text as
      written (`''` when absent); categories follow `CheckOrder`, none twice,
      so there are at most ten. */
  lemma CreateReferenceRangesContents(row: Row)
    ensures forall i :: 0 <= i < |CreateReferenceRanges(row)| ==>
              CreateReferenceRanges(row)[i] == RangeOf(row, CreateReferenceRanges(row)[i].userType)
    ensures forall u :: Included(row, u) <==> u in Categories(CreateReferenceRanges(row))
    ensures Subsequence(Categories(CreateReferenceRanges(row)), CheckOrder)
    ensures Distinct(Categories(CreateReferenceRanges(row)))
    ensures |CreateReferenceRanges(row)| <= 10
  {
    var r := CreateReferenceRanges(row);
    PushesAreSelected(row, CheckOrder);
    assert r == Selected(row, CheckOrder);
    SelectedContents(row, CheckOrder);
    forall u
      ensures Included(row, u) <==> u in Categories(r)
    {
      EveryCategoryChecked(u);
    }
    CheckOrderDistinct();
    SubsequenceOfDistinct(Categories(r), CheckOrder);
  }

  /** No stored range has both limits blank. */
  lemma RangesNeverBothBlank(row: Row)
    ensures forall i :: 0 <= i < |CreateReferenceRanges(row)| ==>
              !IsBlank(CreateReferenceRanges(row)[i].lowerLimit) || !IsBlank(CreateReferenceRanges(row)[i].upperLimit)
  {
    PushesAreSelected(row, CheckOrder);
    SelectedContents(row, CheckOrder);
  }

  /** Only the limit fields matter: two rows that agree on them give the same
      ranges. */
  lemma {:induction false} RangesDependOnLimitsOnly(a: Row, b: Row, us: seq<UserType>)
    requires forall u :: Field(a, LowKey(u)) == Field(b, LowKey(u)) && Field(a, HighKey(u)) == Field(b, HighKey(u))
    ensures Pushes(a, us) == Pushes(b, us)
  {
    if |us| > 0 {
      RangesDependOnLimitsOnly(a, b, us[..|us| - 1]);
    }
  }

  /** A row that fills in the limits of one category only (the haemoglobin
      row with just adult-male limits, say) yields exactly that one range. */
  lemma SingleCategoryRow(row: Row, u: UserType)
    requires Included(row, u)
    requires forall v :: v != u ==> !Included(row, v)
    ensures CreateReferenceRanges(row) == [RangeOf(row, u)]
  {
    PushesAreSelected(row, CheckOrder);
    EveryCategoryChecked(u);
    CheckOrderDistinct();
    SelectedOnly(row, CheckOrder, u);
  }

  lemma {:induction false} SelectedOnly(row: Row, us: seq<UserType>, u: UserType)
    requires Distinct(us)
    requires forall v :: v != u ==> !Included(row, v)
    ensures Selected(row, us) == if u in us && Included(row, u) then [RangeOf(row, u)] else []
  {
    if |us| > 0 {
      assert Distinct(us[1..]) by {
        assert forall i :: 0 <= i < |us| - 1 ==> us[1..][i] == us[i + 1];
      }
      SelectedOnly(row, us[1..], u);
      assert us[0] == u ==> u !in us[1..];
      assert u in us <==> (us[0] == u || u in us[1..]);
    }
  }

  /** Every category has its own two limit fields, and no lower-limit field
      is an upper-limit field. */
  lemma LimitKeysDistinct(u: UserType, v: UserType)
    ensures LowKey(u) == LowKey(v) ==> u == v
    ensures HighKey(u) == HighKey(v) ==> u == v
    ensures LowKey(u) != HighKey(v)
  {
  }

  /** Two rows that include the same categories, with the same limits for
      each, give the same ranges. */
  lemma {:induction false} RangesAgree(a: Row, b: Row, us: seq<UserType>)
    requires forall u :: (Included(a, u) <==> Included(b, u))
    requires forall u :: Included(a, u) ==> RangeOf(a, u) == RangeOf(b, u)
    ensures Pushes(a, us) == Pushes(b, us)
  {
    if |us| > 0 {
      var u := us[|us| - 1];
      RangesAgree(a, b, us[..|us| - 1]);
      if Included(a, u) {
        assert RangeOf(a, u) == RangeOf(b, u);
        assert ReferenceRange(Field(a, LowKey(u)), Field(a, HighKey(u)), u)
            == ReferenceRange(Field(b, LowKey(u)), Field(b, HighKey(u)), u);
      } else {
        assert !Included(b, u);
      }
    }
  }
}
