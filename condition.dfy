/**
 * `OnArrayPropertyContainsValueCondition`: a Spring condition that activates a bean when a
 * list-valued configuration property contains a given value. The annotation's attributes are a
 * map from attribute name to value (an absent key is a null value); the environment binds
 * property names to lists of strings.
 */
module Condition {
  import opened Wrappers

  const AnnotationName := "ua.od.whcrow.bfpu.cli._commons.ConditionalOnArrayPropertyContains"
  const PN_NAME := "name"
  const PN_CONTAINS_VALUE := "containsValue"

  datatype ConditionOutcome = ConditionOutcome(matched: bool, message: string)

  function Required(attribute: string): string {
    "Annotation " + AnnotationName + " required property \"" + attribute + "\" is NULL"
  }

  /** The message of a completed membership test: whether the list bound to the property holds the value. */
  function ContainsMessage(propertyName: string, value: string, contains: bool): string {
    "Property \"" + propertyName + "\" value " + (if contains then "contains" else "doesn't contain") + " \"" + value + "\""
  }

  /** `getMatchOutcome`: three guards, then a membership test on the bound list. */
  function GetMatchOutcome(attributes: Option<map<string, string>>, environment: map<string, seq<string>>)
    : (r: ConditionOutcome)
    ensures r.matched <==>
      attributes.Some? && PN_NAME in attributes.value && PN_CONTAINS_VALUE in attributes.value
      && attributes.value[PN_NAME] in environment
      && attributes.value[PN_CONTAINS_VALUE] in environment[attributes.value[PN_NAME]]
    ensures attributes.None? ==> r.message == "Annotation " + AnnotationName + " not found"
    ensures attributes.Some? && PN_NAME !in attributes.value ==> r.message == Required(PN_NAME)
    ensures attributes.Some? && PN_NAME in attributes.value && PN_CONTAINS_VALUE !in attributes.value
      ==> r.message == Required(PN_CONTAINS_VALUE)
    ensures attributes.Some? && PN_NAME in attributes.value && PN_CONTAINS_VALUE in attributes.value
      ==> r.message == ContainsMessage(attributes.value[PN_NAME], attributes.value[PN_CONTAINS_VALUE], r.matched)
  {
    if attributes.None? then
      ConditionOutcome(false, "Annotation " + AnnotationName + " not found")
    else
      var attrs := attributes.value;
      if PN_NAME !in attrs then
        ConditionOutcome(false, Required(PN_NAME))
      else if PN_CONTAINS_VALUE !in attrs then
        ConditionOutcome(false, Required(PN_CONTAINS_VALUE))
      else
        var propertyName, value := attrs[PN_NAME], attrs[PN_CONTAINS_VALUE];
        // An unbound property is an empty list.
        var actual := if propertyName in environment then environment[propertyName] else [];
        ConditionOutcome(value in actual, ContainsMessage(propertyName, value, value in actual))
  }

  /** A missing `name` is reported even when `containsValue` is missing too: that guard comes first. */
  lemma NameCheckedFirst(attrs: map<string, string>, environment: map<string, seq<string>>)
    requires PN_NAME !in attrs
    ensures GetMatchOutcome(Some(attrs), environment) == ConditionOutcome(false, Required(PN_NAME))
  {
  }

  /** The outcome depends only on the list bound to the named property. */
  lemma OnlyTheNamedPropertyMatters(attrs: map<string, string>, e1: map<string, seq<string>>, e2: map<string, seq<string>>)
    requires PN_NAME in attrs
    requires attrs[PN_NAME] in e1 <==> attrs[PN_NAME] in e2
    requires attrs[PN_NAME] in e1 ==> e1[attrs[PN_NAME]] == e2[attrs[PN_NAME]]
    ensures GetMatchOutcome(Some(attrs), e1) == GetMatchOutcome(Some(attrs), e2)
  {
  }
}
