/**
 * The "Icon" page of ReBuff (IconStyleConfig): the icon source a widget uses, the custom
 * icon id with its search box and picker, and the threshold fields of the indicator style.
 * The state updates the page makes while it is drawn are the methods of the class below.
 */
module IconStyle {
  import opened Wrappers
  import opened Primitives
  import Lists
  import NumberParsing

  /** The IconOption value of the "Custom Icon" radio button. */
  const CustomIconOption: int := 1

  /** The IconOption value of the "Indicator" radio button. */
  const IndicatorOption: int := 6

  /** The UnitOption value of a static indicator, the default. */
  const StaticUnit: int := 6

  /** A search result: the name, the row id and the icon id of an action, status or item. */
  datatype TriggerData = TriggerData(Name: string, Id: uint32, Icon: uint32)

  /** The game-data searches by name (FindActionEntries, FindStatusEntries, FindItemEntries). */
  datatype IconLookup = IconLookup(
    findActionEntries: string -> seq<TriggerData>,
    findStatusEntries: string -> seq<TriggerData>,
    findItemEntries: string -> seq<TriggerData>)

  /** The pair of fields the UnitOption switch assigns. */
  datatype Thresholds = Thresholds(threshold: real, maxThreshold: real)

  /**
   * The UnitOption switch: units 0 to 5 each have a fixed maximum and keep the threshold;
   * the static unit 6 zeroes both; any other value has no arm and changes nothing.
   */
  function ThresholdRule(unitOption: int, t: Thresholds): (r: Thresholds)
    ensures 0 <= unitOption <= 5 ==> r.threshold == t.threshold && r.maxThreshold in {100.0, 10000.0, 16.0, 600.0}
    ensures unitOption == StaticUnit ==> r == Thresholds(0.0, 0.0)
    ensures !(0 <= unitOption <= 6) ==> r == t
  {
    match unitOption
    case 0 => t.(maxThreshold := 100.0)
    case 1 => t.(maxThreshold := 10000.0)
    case 2 => t.(maxThreshold := 100.0)
    case 3 => t.(maxThreshold := 100.0)
    case 4 => t.(maxThreshold := 16.0)
    case 5 => t.(maxThreshold := 600.0)
    case 6 => Thresholds(0.0, 0.0)
    case _ => t
  }

  /** The maximum each unit kind gets: 100 for HP, GP and CP, 10000 for MP, 16 for stacks, 600 for time. */
  lemma ThresholdRuleTable(t: Thresholds)
    ensures ThresholdRule(0, t).maxThreshold == 100.0
    ensures ThresholdRule(1, t).maxThreshold == 10000.0
    ensures ThresholdRule(2, t).maxThreshold == 100.0
    ensures ThresholdRule(3, t).maxThreshold == 100.0
    ensures ThresholdRule(4, t).maxThreshold == 16.0
    ensures ThresholdRule(5, t).maxThreshold == 600.0
  {
  }

  /** Applying the switch on every frame is the same as applying it once. */
  lemma ThresholdRuleIdempotent(unitOption: int, t: Thresholds)
    ensures ThresholdRule(unitOption, ThresholdRule(unitOption, t)) == ThresholdRule(unitOption, t)
  {
  }

  /**
   * The results a submitted search holds: text that ushort.TryParse accepts is taken as one
   * icon id, one result with no name and row id 0; other non-empty text gives the action,
   * status and item matches, in that order; empty text gives nothing.
   */
  function SearchResults(text: string, lookup: IconLookup): (r: seq<TriggerData>)
    ensures NumberParsing.TryParseUInt16(text).Some? ==>
      r == [TriggerData("", 0, NumberParsing.TryParseUInt16(text).value as int as uint32)]
    ensures text == [] ==> r == []
    ensures NumberParsing.TryParseUInt16(text).None? && text != [] ==>
      r == lookup.findActionEntries(text) + lookup.findStatusEntries(text) + lookup.findItemEntries(text)
  {
    match NumberParsing.TryParseUInt16(text)
    case Some(iconId) => [TriggerData("", 0, iconId as int as uint32)]
    case None =>
      if text != [] then
        lookup.findActionEntries(text) + lookup.findStatusEntries(text) + lookup.findItemEntries(text)
      else []
  }

  /** Typing an icon id in decimal finds exactly that icon, whatever the game data holds. */
  lemma NumericQueryGivesOneIcon(iconId: uint16, lookup: IconLookup)
    ensures SearchResults(NumberParsing.DecimalString(iconId as nat), lookup) == [TriggerData("", 0, iconId as int as uint32)]
  {
    NumberParsing.ParseDecimalString(iconId);
  }

  /** `Select(t => t.Icon)`: the icon id of each result, in order. */
  function Icons(results: seq<TriggerData>): (r: seq<uint32>)
    ensures |r| == |results|
    ensures forall k :: 0 <= k < |r| ==> r[k] == results[k].Icon
  {
    if results == [] then [] else [results[0].Icon] + Icons(results[1..])
  }

  class IconStyleConfig {
    var IconOption: int
    var CustomIcon: uint32
    var Unit: real
    var MaxUnit: real
    var MaxThreshold: real
    var Threshold: real
    var UnitOption: int
    var IconSearchInput: string
    var IconSearchResults: seq<TriggerData>

    /** The field initialisers: automatic icon, no custom icon, static unit, thresholds 100. */
    predicate HasDefaults()
      reads this
    {
      && IconOption == 0 && CustomIcon == 0
      && Unit == 100.0 && MaxUnit == 100.0 && MaxThreshold == 100.0 && Threshold == 100.0
      && UnitOption == StaticUnit
      && IconSearchInput == "" && IconSearchResults == []
    }

    constructor ()
      ensures HasDefaults()
    {
      IconOption := 0;
      CustomIcon := 0;
      Unit := 100.0;
      MaxUnit := 100.0;
      MaxThreshold := 100.0;
      Threshold := 100.0;
      UnitOption := StaticUnit;
      IconSearchInput := "";
      IconSearchResults := [];
    }

    /** GetDefault: a new page with the field initialisers. */
    method GetDefault() returns (r: IconStyleConfig)
      ensures fresh(r) && r.HasDefaults()
    {
      r := new IconStyleConfig();
    }

    /** The icons the picker shows: the results' icon ids with later duplicates dropped. */
    function PickerIcons(): (r: seq<uint32>)
      reads this
      ensures Lists.NoDuplicates(r)
      ensures forall k :: 0 <= k < |r| ==> exists j :: 0 <= j < |IconSearchResults| && r[k] == IconSearchResults[j].Icon
      ensures forall j :: 0 <= j < |IconSearchResults| ==> IconSearchResults[j].Icon in r
      ensures Lists.InFirstOccurrenceOrder(r, Icons(IconSearchResults))
    {
      var icons := Icons(IconSearchResults);
      assert forall j :: 0 <= j < |IconSearchResults| ==> IconSearchResults[j].Icon == icons[j];
      Lists.Distinct(icons)
    }

    /**
     * The threshold switch, run while the page is drawn: only the Indicator option draws it,
     * and then Threshold and MaxThreshold follow ThresholdRule for the current UnitOption.
     */
    method UpdateThresholds()
      modifies this
      ensures IconOption == IndicatorOption ==>
        Thresholds(Threshold, MaxThreshold) == ThresholdRule(UnitOption, Thresholds(old(Threshold), old(MaxThreshold)))
      ensures IconOption != IndicatorOption ==> Threshold == old(Threshold) && MaxThreshold == old(MaxThreshold)
      ensures IconOption == old(IconOption) && UnitOption == old(UnitOption) && CustomIcon == old(CustomIcon)
      ensures Unit == old(Unit) && MaxUnit == old(MaxUnit)
      ensures IconSearchInput == old(IconSearchInput) && IconSearchResults == old(IconSearchResults)
    {
      if IconOption == IndicatorOption {
        match UnitOption {
          case 0 => MaxThreshold := 100.0;
          case 1 => MaxThreshold := 10000.0;
          case 2 => MaxThreshold := 100.0;
          case 3 => MaxThreshold := 100.0;
          case 4 => MaxThreshold := 16.0;
          case 5 => MaxThreshold := 600.0;
          case 6 =>
            Threshold := 0.0;
            MaxThreshold := 0.0;
          case _ =>
        }
      }
    }

    /**
     * Enter in the search box, which only the Custom Icon option draws: the box holds `text`,
     * the old results are cleared and the new ones are those SearchResults gives.
     */
    method SubmitSearch(text: string, lookup: IconLookup)
      modifies this
      ensures IconOption == CustomIconOption ==> IconSearchInput == text && IconSearchResults == SearchResults(text, lookup)
      ensures IconOption != CustomIconOption ==> IconSearchInput == old(IconSearchInput) && IconSearchResults == old(IconSearchResults)
      ensures IconOption == old(IconOption) && CustomIcon == old(CustomIcon)
      ensures Threshold == old(Threshold) && MaxThreshold == old(MaxThreshold) && UnitOption == old(UnitOption)
      ensures Unit == old(Unit) && MaxUnit == old(MaxUnit)
    {
      if IconOption != CustomIconOption {
        return;
      }
      IconSearchInput := text;
      IconSearchResults := [];
      var parsed := NumberParsing.TryParseUInt16(IconSearchInput);
      if parsed.Some? {
        IconSearchResults := IconSearchResults + [TriggerData("", 0, parsed.value as int as uint32)];
      } else if IconSearchInput != "" {
        IconSearchResults := IconSearchResults + lookup.findActionEntries(IconSearchInput);
        IconSearchResults := IconSearchResults + lookup.findStatusEntries(IconSearchInput);
        IconSearchResults := IconSearchResults + lookup.findItemEntries(IconSearchInput);
      }
    }

    /**
     * A click on the picker's icon `i`: that icon becomes the custom icon, one of the
     * results' icons, and the results and the search box are cleared.
     */
    method PickIcon(i: nat)
      requires IconOption == CustomIconOption && i < |PickerIcons()|
      modifies this
      ensures CustomIcon == old(PickerIcons())[i]
      ensures exists j :: 0 <= j < |old(IconSearchResults)| && CustomIcon == old(IconSearchResults)[j].Icon
      ensures IconSearchResults == [] && IconSearchInput == ""
      ensures IconOption == old(IconOption) && UnitOption == old(UnitOption)
      ensures Threshold == old(Threshold) && MaxThreshold == old(MaxThreshold)
      ensures Unit == old(Unit) && MaxUnit == old(MaxUnit)
    {
      var icons := PickerIcons();
      CustomIcon := icons[i];
      IconSearchResults := [];
      IconSearchInput := "";
    }
  }
}
