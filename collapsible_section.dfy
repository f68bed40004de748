/**
 * A collapsible board section (src/components/layout/CollapsibleSection.tsx):
 * shown collapsed or open by its parent's `isCollapsed` when given, and by
 * its own state otherwise; the toggle asks the parent through
 * `onCollapsedChange` when there is one, and flips its own state when not.
 */
module CollapsibleSection {
  import opened JsStrings

  /** `externalIsCollapsed !== undefined ? externalIsCollapsed : internalIsCollapsed`. */
  function Displayed(external: Option<bool>, internal: bool): (r: bool)
    ensures external.Some? ==> r == external.value
    ensures external.None? ==> r == internal
  {
    if external.Some? then external.value else internal
  }

  class Section {
    /** The `isCollapsed` prop, when the parent controls the section. */
    const external: Option<bool>
    /** Whether an `onCollapsedChange` handler was passed. */
    const hasHandler: bool
    var internalIsCollapsed: bool

    /** `useState(defaultCollapsed)`. */
    constructor(defaultCollapsed: bool, external: Option<bool>, hasHandler: bool)
      ensures internalIsCollapsed == defaultCollapsed
      ensures this.external == external && this.hasHandler == hasHandler
    {
      internalIsCollapsed := defaultCollapsed;
      this.external := external;
      this.hasHandler := hasHandler;
    }

    /** What the section shows. */
    function IsCollapsed(): bool
      reads this
    {
      Displayed(external, internalIsCollapsed)
    }

    /**
     * `handleToggle`: the negation of what is shown goes to the handler
     * (`requested`) when there is one, leaving the own state alone;
     * without a handler the own state becomes that negation.
     */
    method Toggle() returns (requested: Option<bool>)
      modifies this
      ensures hasHandler ==> requested == Some(!old(IsCollapsed())) && internalIsCollapsed == old(internalIsCollapsed)
      ensures !hasHandler ==> requested == None && internalIsCollapsed == ToggledInternal(external, old(internalIsCollapsed))
    {
      var newCollapsed := !IsCollapsed();
      if hasHandler {
        requested := Some(newCollapsed);
      } else {
        requested := None;
        internalIsCollapsed := newCollapsed;
      }
    }
  }

  /** The state after a toggle without a handler, as a function of the state before. */
  function ToggledInternal(external: Option<bool>, internal: bool): bool {
    !Displayed(external, internal)
  }

  /** An uncontrolled section without a handler shows the opposite after a toggle, and the same after two. */
  lemma UncontrolledToggleFlips(internal: bool)
    ensures Displayed(None, ToggledInternal(None, internal)) == !Displayed(None, internal)
    ensures ToggledInternal(None, ToggledInternal(None, internal)) == internal
  {
  }

  /**
   * A section given `isCollapsed` but no handler ignores its toggle: the
   * own state flips, but what is shown stays the parent's value.
   */
  lemma ControlledWithoutHandlerIgnoresToggle(external: bool, internal: bool)
    ensures Displayed(Some(external), ToggledInternal(Some(external), internal)) == Displayed(Some(external), internal)
    ensures ToggledInternal(Some(external), internal) == !external
  {
  }
}
