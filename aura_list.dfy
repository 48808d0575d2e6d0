/**
 * The "Auras" page of XIVAuras (AuraListConfig): the top-level list of auras, a text field
 * that holds a new aura's name or an import string, and the create, import and delete
 * actions that edit the list in place.
 */
module AuraList {
  import opened Wrappers
  import Lists

  /** The kinds of aura the type selector offers. */
  datatype AuraType = Group | Icon | Bar | Label

  /**
   * One entry of the list (an IAuraListItem: AuraGroup, AuraIcon, AuraBar, ...). Entries are
   * objects: two auras with the same name are still two entries, and deleting removes the
   * very object the user clicked.
   */
  class AuraListItem {
    const Type: AuraType
    const Name: string

    constructor (auraType: AuraType, name: string)
      ensures Type == auraType && Name == name
    {
      Type := auraType;
      Name := name;
    }
  }

  /** What GetAuraFromImportString yields for a string it can decode: the aura's variant and name. */
  datatype DecodedAura = DecodedAura(auraType: AuraType, name: string)

  /** The `type switch` of CreateAura: the variants it can create; any other type yields null. */
  function CreatedVariant(auraType: AuraType): (r: Option<AuraType>)
    ensures r.Some? ==> r.value == auraType
    ensures r.None? <==> auraType == Label
  {
    match auraType
    case Group => Some(Group)
    case Icon => Some(Icon)
    case Bar => Some(Bar)
    case _ => None
  }

  class AuraListConfig {
    var SelectedType: AuraType
    var Input: string
    var Auras: seq<AuraListItem>

    /** A new page: no auras, an empty input, `Group` selected. */
    constructor ()
      ensures Auras == [] && Input == "" && SelectedType == Group
    {
      SelectedType := Group;
      Input := "";
      Auras := [];
    }

    /**
     * CreateAura: a non-empty name and a creatable type append one new aura of that variant
     * and name at the end; otherwise the list is unchanged. The input is cleared either way.
     */
    method CreateAura(auraType: AuraType, name: string)
      modifies this
      ensures Input == "" && SelectedType == old(SelectedType)
      ensures name == "" || CreatedVariant(auraType).None? ==> Auras == old(Auras)
      ensures name != "" && CreatedVariant(auraType).Some? ==>
        && |Auras| == |old(Auras)| + 1
        && Auras[..|old(Auras)|] == old(Auras)
        && fresh(Auras[|old(Auras)|])
        && Auras[|old(Auras)|].Type == auraType && Auras[|old(Auras)|].Name == name
    {
      if name != "" {
        var variant := CreatedVariant(auraType);
        if variant.Some? {
          var aura := new AuraListItem(variant.value, name);
          Auras := Auras + [aura];
        }
      }
      Input := "";
    }

    /** DeleteAura: List.Remove, the first occurrence of that very aura goes; nothing else changes. */
    method DeleteAura(aura: AuraListItem)
      modifies this
      ensures Auras == Lists.Remove(old(Auras), aura)
      ensures Input == old(Input) && SelectedType == old(SelectedType)
    {
      Auras := Lists.Remove(Auras, aura);
    }

    /**
     * ImportAura: a non-empty string that the decoder accepts appends a new aura built from it
     * at the end; an empty string or a failed decode leaves the list as it was. The input is
     * cleared either way.
     */
    method ImportAura(importString: string, decode: string -> Option<DecodedAura>)
      modifies this
      ensures Input == "" && SelectedType == old(SelectedType)
      ensures importString == "" || decode(importString).None? ==> Auras == old(Auras)
      ensures importString != "" && decode(importString).Some? ==>
        && |Auras| == |old(Auras)| + 1
        && Auras[..|old(Auras)|] == old(Auras)
        && fresh(Auras[|old(Auras)|])
        && Auras[|old(Auras)|].Type == decode(importString).value.auraType
        && Auras[|old(Auras)|].Name == decode(importString).value.name
    {
      if importString != "" {
        var decoded := decode(importString);
        if decoded.Some? {
          var aura := new AuraListItem(decoded.value.auraType, decoded.value.name);
          Auras := Auras + [aura];
        }
      }
      Input := "";
    }
  }

  /** Deleting the aura that was just created gives back the list from before the creation. */
  method CreateThenDelete(page: AuraListConfig, auraType: AuraType, name: string)
    requires name != "" && CreatedVariant(auraType).Some?
    modifies page
    ensures page.Auras == old(page.Auras) && page.Input == ""
  {
    page.CreateAura(auraType, name);
    var created := page.Auras[|page.Auras| - 1];
    assert page.Auras == old(page.Auras) + [created];
    Lists.RemoveAfterAppend(old(page.Auras), created);
    page.DeleteAura(created);
  }
}
