/**
 * The "Labels" page of ReBuff (LabelListConfig): the text labels of a widget, a text field
 * for a new label's name, the add, import and delete actions that edit the list in place,
 * and the factory value with the two standard labels.
 */
module LabelList {
  import opened Wrappers
  import Lists
  import ConfigHelpers

  /** The fields of a trigger sample a style condition can test. */
  datatype TriggerDataSource = Value | Stacks | MaxStacks

  /** The comparison a style condition applies to the sample field and its threshold. */
  datatype TriggerDataOp = Equals | NotEquals | LessThan | LessThanEq | GreaterThan | GreaterThanEq

  /** A StyleCondition<LabelStyleConfig> as far as the factory sets it: field, operator, threshold. */
  datatype StyleCondition = StyleCondition(source: TriggerDataSource, op: TriggerDataOp, value: real)

  /** The two font keys of FontsManager the factory uses (their text is not part of this model). */
  datatype FontKey = DefaultBigFontKey | DefaultMediumFontKey

  /** The one anchor the factory names. */
  datatype DrawAnchor = BottomRight

  datatype Vector2 = Vector2(x: real, y: real)

  datatype ConfigColor = ConfigColor(r: real, g: real, b: real, a: real)

  /**
   * The LabelStyleConfig settings the factory assigns; `None` leaves a setting at the
   * default LabelStyleConfig gives it.
   */
  datatype LabelStyle = LabelStyle(
    fontKey: Option<FontKey>,
    position: Option<Vector2>,
    parentAnchor: Option<DrawAnchor>,
    textAlign: Option<DrawAnchor>,
    textColor: Option<ConfigColor>,
    outlineColor: Option<ConfigColor>)

  const DefaultStyle: LabelStyle := LabelStyle(None, None, None, None, None, None)

  /** A WidgetLabel: its name, its text format, its style settings and its style conditions. */
  class WidgetLabel {
    var Name: string
    var Text: string
    var Style: LabelStyle
    var Conditions: seq<StyleCondition>

    /** `new WidgetLabel(name, text)`. */
    constructor (name: string, text: string)
      ensures Name == name && Text == text && Style == DefaultStyle && Conditions == []
    {
      Name := name;
      Text := text;
      Style := DefaultStyle;
      Conditions := [];
    }

    /** `new WidgetLabel(name)`, the text format left empty. */
    constructor Named(name: string)
      ensures Name == name && Text == "" && Style == DefaultStyle && Conditions == []
    {
      Name := name;
      Text := "";
      Style := DefaultStyle;
      Conditions := [];
    }

    /** `StyleConditions.Conditions.Add(condition)`. */
    method AddCondition(condition: StyleCondition)
      modifies this
      ensures Conditions == old(Conditions) + [condition]
      ensures Name == old(Name) && Text == old(Text) && Style == old(Style)
    {
      Conditions := Conditions + [condition];
    }
  }

  /** What an import string decodes to (a WidgetListItem): a label, or a widget of another variant. */
  datatype WidgetListItem =
    | DecodedLabel(name: string, text: string, style: LabelStyle, conditions: seq<StyleCondition>)
    | DecodedOtherWidget(name: string)

  class LabelListConfig {
    var LabelInput: string
    var WidgetLabels: seq<WidgetLabel>

    /** `new LabelListConfig()`: no labels. */
    constructor ()
      ensures WidgetLabels == [] && LabelInput == ""
    {
      LabelInput := "";
      WidgetLabels := [];
    }

    /** `new LabelListConfig(params labels)`: exactly the given labels, in the given order. */
    constructor FromLabels(labels: seq<WidgetLabel>)
      ensures WidgetLabels == labels && LabelInput == ""
    {
      LabelInput := "";
      WidgetLabels := labels;
    }

    /**
     * GetDefault: a new page with two new labels, "Value" showing "[value:t]" in the big font
     * with the condition `Value Equals 0`, then "Stacks" showing "[stacks]" in the medium font,
     * moved to (-1, 0), anchored and aligned bottom-right, black text with a white outline,
     * with the condition `MaxStacks LessThanEq 1`.
     */
    method GetDefault() returns (r: LabelListConfig)
      ensures fresh(r) && r.LabelInput == "" && |r.WidgetLabels| == 2
      ensures fresh(r.WidgetLabels[0]) && fresh(r.WidgetLabels[1]) && r.WidgetLabels[0] != r.WidgetLabels[1]
      ensures r.WidgetLabels[0].Name == "Value" && r.WidgetLabels[0].Text == "[value:t]"
      ensures r.WidgetLabels[0].Style == DefaultStyle.(fontKey := Some(DefaultBigFontKey))
      ensures r.WidgetLabels[0].Conditions == [StyleCondition(Value, Equals, 0.0)]
      ensures r.WidgetLabels[1].Name == "Stacks" && r.WidgetLabels[1].Text == "[stacks]"
      ensures r.WidgetLabels[1].Style == LabelStyle(
        Some(DefaultMediumFontKey), Some(Vector2(-1.0, 0.0)), Some(BottomRight), Some(BottomRight),
        Some(ConfigColor(0.0, 0.0, 0.0, 1.0)), Some(ConfigColor(1.0, 1.0, 1.0, 1.0)))
      ensures r.WidgetLabels[1].Conditions == [StyleCondition(MaxStacks, LessThanEq, 1.0)]
    {
      var valueLabel := new WidgetLabel("Value", "[value:t]");
      valueLabel.Style := valueLabel.Style.(fontKey := Some(DefaultBigFontKey));
      valueLabel.AddCondition(StyleCondition(Value, Equals, 0.0));

      var stacksLabel := new WidgetLabel("Stacks", "[stacks]");
      stacksLabel.Style := stacksLabel.Style.(
        fontKey := Some(DefaultMediumFontKey),
        position := Some(Vector2(-1.0, 0.0)),
        parentAnchor := Some(BottomRight),
        textAlign := Some(BottomRight),
        textColor := Some(ConfigColor(0.0, 0.0, 0.0, 1.0)),
        outlineColor := Some(ConfigColor(1.0, 1.0, 1.0, 1.0)));
      stacksLabel.AddCondition(StyleCondition(MaxStacks, LessThanEq, 1.0));

      r := new LabelListConfig.FromLabels([valueLabel, stacksLabel]);
    }

    /** AddLabel: a non-empty name appends one new label of that name at the end; the input is cleared. */
    method AddLabel(name: string)
      modifies this
      ensures LabelInput == ""
      ensures name == "" ==> WidgetLabels == old(WidgetLabels)
      ensures name != "" ==>
        && |WidgetLabels| == |old(WidgetLabels)| + 1
        && WidgetLabels[..|old(WidgetLabels)|] == old(WidgetLabels)
        && fresh(WidgetLabels[|old(WidgetLabels)|])
        && WidgetLabels[|old(WidgetLabels)|].Name == name
    {
      if name != "" {
        var newLabel := new WidgetLabel.Named(name);
        WidgetLabels := WidgetLabels + [newLabel];
      }
      LabelInput := "";
    }

    /**
     * ImportLabel: `clipboard` is the text read from the clipboard, `None` when reading
     * throws. Then the method returns at once: nothing changes, not even the input. Otherwise
     * the text goes through GetFromImportString; a decoded label is appended (a new object, as deserialisation makes one),
     * anything else (nothing, or another widget variant) leaves the list, and the input is
     * cleared.
     */
    method ImportLabel(clipboard: Option<string>, codec: ConfigHelpers.Codec<WidgetListItem>)
      modifies this
      ensures clipboard.None? ==> WidgetLabels == old(WidgetLabels) && LabelInput == old(LabelInput)
      ensures clipboard.Some? ==> LabelInput == ""
      ensures clipboard.Some? ==>
        var decoded := ConfigHelpers.GetFromImportString(codec, clipboard.value);
        if decoded.Some? && decoded.value.DecodedLabel? then
          && |WidgetLabels| == |old(WidgetLabels)| + 1
          && WidgetLabels[..|old(WidgetLabels)|] == old(WidgetLabels)
          && fresh(WidgetLabels[|old(WidgetLabels)|])
          && WidgetLabels[|old(WidgetLabels)|].Name == decoded.value.name
          && WidgetLabels[|old(WidgetLabels)|].Text == decoded.value.text
          && WidgetLabels[|old(WidgetLabels)|].Style == decoded.value.style
          && WidgetLabels[|old(WidgetLabels)|].Conditions == decoded.value.conditions
        else
          WidgetLabels == old(WidgetLabels)
    {
      if clipboard.None? {
        return;
      }
      var importString := clipboard.value;
      var newWidget := ConfigHelpers.GetFromImportString(codec, importString);
      if newWidget.Some? && newWidget.value.DecodedLabel? {
        var newLabel := new WidgetLabel(newWidget.value.name, newWidget.value.text);
        newLabel.Style := newWidget.value.style;
        newLabel.Conditions := newWidget.value.conditions;
        WidgetLabels := WidgetLabels + [newLabel];
      }
      LabelInput := "";
    }

    /** DeleteLabel: List.Remove, the first occurrence of that very label goes; nothing else changes. */
    method DeleteLabel(widgetLabel: WidgetLabel)
      modifies this
      ensures WidgetLabels == Lists.Remove(old(WidgetLabels), widgetLabel)
      ensures LabelInput == old(LabelInput)
    {
      WidgetLabels := Lists.Remove(WidgetLabels, widgetLabel);
    }
  }
}
