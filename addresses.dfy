/** The address book page: the local list of the customer's addresses, the
    add/edit form, and the handlers that change them after a store call.
    Whether a store call succeeded, and the row it returned, are inputs. The
    store side of the default-clearing updates is modelled on a sequence of
    rows so that its scope can be stated. */
module Addresses {
  import opened Wrappers
  import opened Seqs

  /** A row of the `addresses` table; every column the form reads may be missing. */
  datatype Address = Address(
    id: nat,
    userId: string,
    name: Option<string>,
    addressLine1: Option<string>,
    addressLine2: Option<string>,
    city: Option<string>,
    state: Option<string>,
    postalCode: Option<string>,
    country: Option<string>,
    phone: Option<string>,
    isDefault: Option<bool>,
    addressType: Option<string>)

  /** `addressData`, the form's state. */
  datatype AddressForm = AddressForm(
    name: string,
    addressLine1: string,
    addressLine2: string,
    city: string,
    state: string,
    postalCode: string,
    country: string,
    phone: string,
    isDefault: bool,
    addressType: string)

  /** The initial form, which `resetAddressForm` restores. */
  const EmptyForm: AddressForm := AddressForm("", "", "", "", "", "", "", "", false, "shipping")

  /** `address.address_type || "shipping"`: a missing or empty type reads as "shipping". */
  function TypeOrShipping(t: Option<string>): (r: string)
    ensures r != ""
    ensures t.Some? && t.value != "" ==> r == t.value
  {
    if t.None? || t.value == "" then "shipping" else t.value
  }

  /** The form `handleEditAddress` fills in from an address. */
  function Prefill(a: Address): (f: AddressForm)
    ensures f.name == a.name.GetOr("") && f.addressLine1 == a.addressLine1.GetOr("")
    ensures f.addressLine2 == a.addressLine2.GetOr("") && f.city == a.city.GetOr("")
    ensures f.state == a.state.GetOr("") && f.postalCode == a.postalCode.GetOr("")
    ensures f.country == a.country.GetOr("") && f.phone == a.phone.GetOr("")
    ensures f.isDefault <==> a.isDefault == Some(true)
    ensures f.addressType != ""
  {
    AddressForm(
      a.name.GetOr(""), a.addressLine1.GetOr(""), a.addressLine2.GetOr(""),
      a.city.GetOr(""), a.state.GetOr(""), a.postalCode.GetOr(""),
      a.country.GetOr(""), a.phone.GetOr(""),
      a.isDefault.GetOr(false), TypeOrShipping(a.addressType))
  }

  /** An address with every column missing prefills the empty form. */
  lemma PrefillBlank(id: nat, userId: string)
    ensures Prefill(Address(id, userId, None, None, None, None, None, None, None, None, None, None)) == EmptyForm
  {
  }

  /** An address with no missing column and a non-empty type is shown as it is stored. */
  lemma PrefillComplete(a: Address, f: AddressForm)
    requires a.name == Some(f.name) && a.addressLine1 == Some(f.addressLine1)
    requires a.addressLine2 == Some(f.addressLine2) && a.city == Some(f.city)
    requires a.state == Some(f.state) && a.postalCode == Some(f.postalCode)
    requires a.country == Some(f.country) && a.phone == Some(f.phone)
    requires a.isDefault == Some(f.isDefault) && a.addressType == Some(f.addressType)
    requires f.addressType != ""
    ensures Prefill(a) == f
  {
  }

  // ---- list updates ----

  ghost predicate DistinctIds(s: seq<Address>) {
    forall i, j :: 0 <= i < j < |s| ==> s[i].id != s[j].id
  }

  predicate HasId(s: seq<Address>, id: nat) {
    exists i :: 0 <= i < |s| && s[i].id == id
  }

  /** `addresses.map(addr => addr.id === id ? data : addr)` */
  function ReplaceById(s: seq<Address>, id: nat, data: Address): (r: seq<Address>)
    ensures |r| == |s|
    ensures forall i :: 0 <= i < |s| ==> r[i] == (if s[i].id == id then data else s[i])
  {
    seq(|s|, i requires 0 <= i < |s| => if s[i].id == id then data else s[i])
  }

  /** When the store returns the row under the same id, the ids stay distinct. */
  lemma ReplaceKeepsIds(s: seq<Address>, id: nat, data: Address)
    requires data.id == id
    ensures forall i :: 0 <= i < |s| ==> ReplaceById(s, id, data)[i].id == s[i].id
    ensures DistinctIds(s) ==> DistinctIds(ReplaceById(s, id, data))
  {
  }

  /** `addresses.filter(addr => addr.id !== id)` */
  function RemoveById(s: seq<Address>, id: nat): (r: seq<Address>)
    ensures |r| <= |s|
    ensures forall a :: a in r <==> a in s && a.id != id
  {
    Filter((a: Address) => a.id != id, s)
  }

  /** Deleting drops every entry with that id, keeps every copy of the rest in order, and keeps ids distinct. */
  lemma RemoveByIdSpec(s: seq<Address>, id: nat)
    ensures var r := RemoveById(s, id);
      && IsSubseq(r, s)
      && !HasId(r, id)
      && (forall a :: a in s && a.id != id ==> a in r)
      && (HasId(s, id) ==> |r| < |s|)
      && (forall a :: multiset(r)[a] == if a.id != id then multiset(s)[a] else 0)
  {
    var p := (a: Address) => a.id != id;
    var r := RemoveById(s, id);
    assert IsSubseq(r, s) by { FilterIsSubseq(p, s); }
    assert forall a: Address :: multiset(r)[a] == if a.id != id then multiset(s)[a] else 0 by {
      FilterCounts(p, s);
    }
    forall a | a in s && a.id != id
      ensures a in r
    {
      var i :| 0 <= i < |s| && s[i] == a;
    }
    if HasId(s, id) {
      var i :| 0 <= i < |s| && s[i].id == id;
      FilterShorter(p, s, i);
    }
  }

  lemma {:induction false} RemoveKeepsDistinct(s: seq<Address>, id: nat)
    requires DistinctIds(s)
    ensures DistinctIds(RemoveById(s, id))
    decreases |s|
  {
    if s != [] {
      RemoveKeepsDistinct(s[1..], id);
      var rest := RemoveById(s[1..], id);
      forall k | 0 <= k < |rest|
        ensures rest[k].id != s[0].id
      {
        var j :| 0 <= j < |s[1..]| && s[1..][j] == rest[k];
        assert s[j + 1] == rest[k];
      }
    }
  }

  /** The local update after "Set as Default": exactly the address with the
      given id and type is marked default, every other one of either type
      is marked not default. */
  function LocalSetDefault(s: seq<Address>, id: nat, addressType: string): (r: seq<Address>)
    ensures |r| == |s|
    ensures forall i :: 0 <= i < |s| ==>
      r[i] == s[i].(isDefault := Some(s[i].id == id && s[i].addressType == Some(addressType)))
  {
    seq(|s|, i requires 0 <= i < |s| =>
      s[i].(isDefault := Some(s[i].id == id && s[i].addressType == Some(addressType))))
  }

  /** With distinct ids, the local list has at most one default address, and
      it is the chosen one when that has the chosen type. */
  lemma LocalSetDefaultSingle(s: seq<Address>, id: nat, addressType: string)
    requires DistinctIds(s)
    ensures var r := LocalSetDefault(s, id, addressType);
      && (forall i, j :: 0 <= i < |r| && 0 <= j < |r| && r[i].isDefault == Some(true) && r[j].isDefault == Some(true) ==> i == j)
      && (forall i :: 0 <= i < |r| ==> (r[i].isDefault == Some(true) <==> s[i].id == id && s[i].addressType == Some(addressType)))
      && DistinctIds(r)
  {
  }

  /** The shipping and billing sections of the page. */
  function Section(s: seq<Address>, addressType: string): (r: seq<Address>)
    ensures |r| <= |s|
    ensures forall a :: a in r <==> a in s && a.addressType == Some(addressType)
  {
    Filter((a: Address) => a.addressType == Some(addressType), s)
  }

  predicate KnownType(a: Address) {
    a.addressType == Some("shipping") || a.addressType == Some("billing")
  }

  /** The two sections never share an address, and an address of a type
      other than shipping or billing is in neither. */
  lemma SectionsDisjoint(s: seq<Address>)
    ensures forall a :: a in Section(s, "shipping") ==> a !in Section(s, "billing")
    ensures forall a :: !KnownType(a) ==> a !in Section(s, "shipping") && a !in Section(s, "billing")
  {
    forall a | a in Section(s, "shipping")
      ensures a.addressType == Some("shipping")
    {
      var i :| 0 <= i < |Section(s, "shipping")| && Section(s, "shipping")[i] == a;
    }
    forall a | a in Section(s, "billing")
      ensures a.addressType == Some("billing")
    {
      var i :| 0 <= i < |Section(s, "billing")| && Section(s, "billing")[i] == a;
    }
  }

  /** When every address is a shipping or a billing one, the two sections
      show the whole list between them. */
  lemma {:induction false} SectionsCover(s: seq<Address>)
    requires forall i :: 0 <= i < |s| ==> KnownType(s[i])
    ensures multiset(Section(s, "shipping")) + multiset(Section(s, "billing")) == multiset(s)
    decreases |s|
  {
    if s != [] {
      SectionsCover(s[1..]);
      assert s == [s[0]] + s[1..];
    }
  }

  // ---- the store side ----

  /** `.update({ is_default: false }).eq("user_id", user).eq("address_type", type)` */
  function ClearDefaults(rows: seq<Address>, user: string, addressType: string): (r: seq<Address>)
    ensures |r| == |rows|
    ensures forall i :: 0 <= i < |rows| ==> r[i].(isDefault := rows[i].isDefault) == rows[i]
    ensures forall i :: 0 <= i < |rows| && rows[i].userId == user && rows[i].addressType == Some(addressType) ==>
      r[i].isDefault == Some(false)
    ensures forall i :: 0 <= i < |rows| && (rows[i].userId != user || rows[i].addressType != Some(addressType)) ==>
      r[i] == rows[i]
  {
    seq(|rows|, i requires 0 <= i < |rows| =>
      if rows[i].userId == user && rows[i].addressType == Some(addressType)
      then rows[i].(isDefault := Some(false)) else rows[i])
  }

  /** The clearing touches only the customer's rows of that type, and only their default flag. */
  lemma ClearDefaultsScope(rows: seq<Address>, user: string, addressType: string)
    ensures var r := ClearDefaults(rows, user, addressType);
      forall i :: 0 <= i < |rows| ==>
        && r[i].(isDefault := rows[i].isDefault) == rows[i]
        && (rows[i].userId != user || rows[i].addressType != Some(addressType) ==> r[i] == rows[i])
        && (rows[i].userId == user && rows[i].addressType == Some(addressType) ==> r[i].isDefault == Some(false))
  {
  }

  /** `.update({ is_default: true }).eq("id", id)` */
  function MarkDefault(rows: seq<Address>, id: nat): (r: seq<Address>)
    ensures |r| == |rows|
    ensures forall i :: 0 <= i < |rows| ==> r[i].(isDefault := rows[i].isDefault) == rows[i]
    ensures forall i :: 0 <= i < |rows| && rows[i].id == id ==> r[i].isDefault == Some(true)
    ensures forall i :: 0 <= i < |rows| && rows[i].id != id ==> r[i] == rows[i]
  {
    seq(|rows|, i requires 0 <= i < |rows| =>
      if rows[i].id == id then rows[i].(isDefault := Some(true)) else rows[i])
  }

  /** The marking touches only the rows with that id, and only their default flag. */
  lemma MarkDefaultScope(rows: seq<Address>, id: nat)
    ensures var r := MarkDefault(rows, id);
      forall i :: 0 <= i < |rows| ==>
        && r[i].(isDefault := rows[i].isDefault) == rows[i]
        && (rows[i].id != id ==> r[i] == rows[i])
        && (rows[i].id == id ==> r[i].isDefault == Some(true))
  {
  }

  /** What "Set as Default" does to the customer's rows in the store: the
      chosen row becomes the default, the customer's other rows of that type
      stop being one, and nothing else changes. */
  function StoreSetDefault(rows: seq<Address>, user: string, id: nat, addressType: string): (r: seq<Address>)
    ensures |r| == |rows|
    ensures forall i :: 0 <= i < |rows| ==> r[i].(isDefault := rows[i].isDefault) == rows[i]
    ensures forall i :: 0 <= i < |rows| && rows[i].id == id ==> r[i].isDefault == Some(true)
    ensures forall i :: 0 <= i < |rows| && rows[i].id != id && rows[i].userId == user && rows[i].addressType == Some(addressType) ==>
      r[i].isDefault == Some(false)
    ensures forall i :: 0 <= i < |rows| && rows[i].id != id && (rows[i].userId != user || rows[i].addressType != Some(addressType)) ==>
      r[i] == rows[i]
  {
    MarkDefault(ClearDefaults(rows, user, addressType), id)
  }

  /** The local update as written disagrees with the store: setting a
      shipping default unmarks the billing default on the page only. */
  lemma LocalSetDefaultDiverges()
    ensures var ship := Address(1, "u", None, None, None, None, None, None, None, None, Some(false), Some("shipping"));
      var bill := Address(2, "u", None, None, None, None, None, None, None, None, Some(true), Some("billing"));
      && LocalSetDefault([ship, bill], 1, "shipping")[1].isDefault == Some(false)
      && StoreSetDefault([ship, bill], "u", 1, "shipping")[1].isDefault == Some(true)
  {
  }

  /** The local update that matches the store: only addresses of the chosen
      type change, and among them exactly the chosen one is the default. */
  function ScopedSetDefault(s: seq<Address>, id: nat, addressType: string): (r: seq<Address>)
    ensures |r| == |s|
    ensures forall i :: 0 <= i < |s| ==> r[i].(isDefault := s[i].isDefault) == s[i]
    ensures forall i :: 0 <= i < |s| && s[i].addressType != Some(addressType) ==> r[i] == s[i]
    ensures forall i :: 0 <= i < |s| && s[i].addressType == Some(addressType) ==>
      (r[i].isDefault == Some(true) <==> s[i].id == id)
  {
    seq(|s|, i requires 0 <= i < |s| =>
      if s[i].addressType == Some(addressType) then s[i].(isDefault := Some(s[i].id == id)) else s[i])
  }

  /** For the customer's own list, where the chosen address has the chosen
      type, the scoped update is exactly what the store ends up holding. */
  lemma ScopedSetDefaultMatchesStore(s: seq<Address>, user: string, id: nat, addressType: string)
    requires forall i :: 0 <= i < |s| ==> s[i].userId == user
    requires forall i :: 0 <= i < |s| && s[i].id == id ==> s[i].addressType == Some(addressType)
    ensures ScopedSetDefault(s, id, addressType) == StoreSetDefault(s, user, id, addressType)
  {
    var r, t := ScopedSetDefault(s, id, addressType), StoreSetDefault(s, user, id, addressType);
    forall i | 0 <= i < |s|
      ensures r[i] == t[i]
    {
    }
  }

  /** The scoped update leaves the other type's defaults alone and gives the
      chosen type exactly one default when ids are distinct. */
  lemma ScopedSetDefaultSpec(s: seq<Address>, id: nat, addressType: string)
    requires DistinctIds(s)
    ensures var r := ScopedSetDefault(s, id, addressType);
      && (forall i :: 0 <= i < |s| && s[i].addressType != Some(addressType) ==> r[i] == s[i])
      && (forall i :: 0 <= i < |s| && s[i].addressType == Some(addressType) ==> (r[i].isDefault == Some(true) <==> s[i].id == id))
      && (forall i, j ::
            0 <= i < |r| && 0 <= j < |r| && r[i].addressType == Some(addressType) && r[j].addressType == Some(addressType)
            && r[i].isDefault == Some(true) && r[j].isDefault == Some(true)
            ==> i == j)
  {
  }

  // ---- the page ----

  /** The page's state: the address list, the form and the address being edited. */
  class AddressBook {
    var addresses: seq<Address>
    var form: AddressForm
    var editing: Option<Address>

    /** The list holds each address once. */
    ghost predicate Valid()
      reads this
    {
      DistinctIds(addresses)
    }

    constructor ()
      ensures Valid()
      ensures addresses == [] && form == EmptyForm && editing == None
    {
      addresses := [];
      form := EmptyForm;
      editing := None;
    }

    /** The fetch on load: `setAddresses(data || [])` unless the store reported an error. */
    method LoadAddresses(failed: bool, data: Option<seq<Address>>)
      modifies this
      ensures failed ==> addresses == old(addresses)
      ensures !failed ==> addresses == data.GetOr([])
      ensures form == old(form) && editing == old(editing)
      ensures !failed && DistinctIds(data.GetOr([])) ==> Valid()
      ensures failed ==> (Valid() <==> old(Valid()))
    {
      if !failed {
        addresses := data.GetOr([]);
      }
    }

    /** `resetAddressForm` */
    method ResetAddressForm()
      modifies this
      ensures form == EmptyForm
      ensures addresses == old(addresses) && editing == old(editing)
    {
      form := EmptyForm;
    }

    /** `handleEditAddress(address)` */
    method HandleEditAddress(address: Address)
      modifies this
      ensures editing == Some(address) && form == Prefill(address)
      ensures addresses == old(addresses)
    {
      editing := Some(address);
      form := Prefill(address);
    }

    /** `handleAddAddress`: `inserted` is the row the store returned, or
        None when the insert failed. On success the new row goes first and
        the form is reset. */
    method HandleAddAddress(inserted: Option<Address>)
      modifies this
      ensures inserted.None? ==> addresses == old(addresses) && form == old(form)
      ensures inserted.Some? ==> addresses == [inserted.value] + old(addresses) && form == EmptyForm
      ensures editing == old(editing)
      ensures old(Valid()) && (inserted.Some? ==> !HasId(old(addresses), inserted.value.id)) ==> Valid()
    {
      if inserted.None? {
        return;
      }
      addresses := [inserted.value] + addresses;
      form := EmptyForm;
    }

    /** `handleUpdateAddress`: with no address being edited the handler
        fails before the update. */
    method HandleUpdateAddress(updated: Option<Address>)
      modifies this
      ensures (old(editing).None? || updated.None?) ==>
        addresses == old(addresses) && form == old(form) && editing == old(editing)
      ensures old(editing).Some? && updated.Some? ==>
        && addresses == ReplaceById(old(addresses), old(editing).value.id, updated.value)
        && form == EmptyForm && editing == None
      ensures old(Valid()) && (old(editing).Some? && updated.Some? ==> updated.value.id == old(editing).value.id) ==> Valid()
    {
      if editing.None? || updated.None? {
        return;
      }
      var id, current := editing.value.id, addresses;
      if updated.value.id == id {
        ReplaceKeepsIds(current, id, updated.value);
      }
      addresses := ReplaceById(current, id, updated.value);
      form := EmptyForm;
      editing := None;
    }

    /** `handleDeleteAddress`: the list loses the edited address once the store's delete succeeded. */
    method HandleDeleteAddress(deleteOk: bool)
      requires Valid()
      modifies this
      ensures Valid()
      ensures (old(editing).None? || !deleteOk) ==> addresses == old(addresses) && editing == old(editing)
      ensures old(editing).Some? && deleteOk ==>
        addresses == RemoveById(old(addresses), old(editing).value.id) && editing == None
      ensures form == old(form)
    {
      if editing.None? || !deleteOk {
        return;
      }
      var id := editing.value.id;
      RemoveKeepsDistinct(addresses, id);
      addresses := RemoveById(addresses, id);
      editing := None;
    }

    /** `handleSetDefault(addressId, addressType)`, the local update as written. */
    method HandleSetDefault(addressId: nat, addressType: string, updateOk: bool)
      requires Valid()
      modifies this
      ensures Valid()
      ensures updateOk ==> addresses == LocalSetDefault(old(addresses), addressId, addressType)
      ensures !updateOk ==> addresses == old(addresses)
      ensures form == old(form) && editing == old(editing)
    {
      if !updateOk {
        return;
      }
      var current := addresses;
      LocalSetDefaultSingle(current, addressId, addressType);
      addresses := LocalSetDefault(current, addressId, addressType);
    }
  }
}
