/**
 * The derived presentation logic and the local state of the InputField
 * component (InputField.tsx): the class list of the `<input>`, its `type`,
 * the password-visibility flag, the internal value and its clear button.
 */
module InputField {
  import opened Wrappers

  datatype Variant = Filled | Outlined | Ghost
  datatype Size = Sm | Md | Lg

  /** The props the modelled logic reads, with the component's defaults already applied. */
  datatype InputProps = InputProps(
    variant: Variant,         // default Outlined
    size: Size,               // default Md
    inputType: string,        // the `type` prop, default "text"
    disabled: bool,
    invalid: bool,
    loading: bool,
    showClearButton: bool,
    showPasswordToggle: bool)

  // ------------------------------------------------------------ class list

  const BaseClasses: seq<string> := [
    "w-full", "border", "rounded-md", "transition-all", "duration-200",
    "placeholder-gray-400", "focus:outline-none", "focus:ring-2", "focus:ring-blue-500", "focus:ring-opacity-50",
    "disabled:bg-gray-100", "disabled:cursor-not-allowed", "disabled:opacity-50"]

  const FilledClasses: seq<string> := ["bg-gray-100", "border-gray-300", "focus:bg-white", "focus:border-blue-500"]
  const OutlinedClasses: seq<string> := ["bg-white", "border-gray-300", "focus:border-blue-500"]
  const GhostClasses: seq<string> :=
    ["bg-transparent", "border-transparent", "border-b", "border-b-gray-300", "rounded-none", "focus:border-b-blue-500"]

  const SmClasses: seq<string> := ["px-2", "py-1", "text-sm"]
  const MdClasses: seq<string> := ["px-3", "py-2", "text-base"]
  const LgClasses: seq<string> := ["px-4", "py-3", "text-lg"]

  const InvalidClasses: seq<string> := ["border-red-500", "focus:border-red-500", "focus:ring-red-500"]
  const LoadingClasses: seq<string> := ["opacity-75"]

  function VariantClasses(variant: Variant): (classes: seq<string>)
  {
    match variant
    case Filled => FilledClasses
    case Outlined => OutlinedClasses
    case Ghost => GhostClasses
  }

  function SizeClasses(size: Size): (classes: seq<string>)
  {
    match size
    case Sm => SmClasses
    case Md => MdClasses
    case Lg => LgClasses
  }

  /**
   * The class list `createInputClasses` builds, before it is joined with
   * spaces: whatever the props, it starts with the thirteen base classes.
   */
  function InputClasses(variant: Variant, size: Size, invalid: bool, loading: bool): (r: seq<string>)
    ensures |r| >= |BaseClasses| == 13
    ensures r[..|BaseClasses|] == BaseClasses
  {
    BaseClasses + VariantClasses(variant) + SizeClasses(size)
      + (if invalid then InvalidClasses else []) + (if loading then LoadingClasses else [])
  }

  /** `createInputClasses`: pushes the base, variant, size and state groups in that order. */
  method CreateInputClasses(variant: Variant, size: Size, invalid: bool, loading: bool) returns (classes: seq<string>)
    ensures classes == InputClasses(variant, size, invalid, loading)
  {
    classes := [];
    classes := classes + BaseClasses;
    if variant == Filled {
      classes := classes + FilledClasses;
    } else if variant == Outlined {
      classes := classes + OutlinedClasses;
    } else if variant == Ghost {
      classes := classes + GhostClasses;
    }
    assert classes == BaseClasses + VariantClasses(variant);
    if size == Sm {
      classes := classes + SmClasses;
    } else if size == Md {
      classes := classes + MdClasses;
    } else if size == Lg {
      classes := classes + LgClasses;
    }
    assert classes == BaseClasses + VariantClasses(variant) + SizeClasses(size);
    if invalid {
      classes := classes + InvalidClasses;
    }
    if loading {
      classes := classes + LoadingClasses;
    }
  }

  /**
   * The class names that mark a variant, a size or a state, and in which
   * groups they occur: each occurs in exactly one group.
   */
  lemma BaseMarksVariantNot()
    ensures "bg-gray-100" !in BaseClasses
    ensures "bg-white" !in BaseClasses
    ensures "rounded-none" !in BaseClasses
  {
  }

  lemma BaseMarksSizeNot()
    ensures "text-sm" !in BaseClasses
    ensures "text-base" !in BaseClasses
    ensures "text-lg" !in BaseClasses
  {
  }

  lemma BaseMarksStateNot()
    ensures "border-red-500" !in BaseClasses
    ensures "focus:border-red-500" !in BaseClasses
    ensures "focus:ring-red-500" !in BaseClasses
    ensures "opacity-75" !in BaseClasses
  {
  }

  lemma FilledMarks()
    ensures "bg-gray-100" in VariantClasses(Filled)
    ensures "bg-white" !in VariantClasses(Filled)
    ensures "rounded-none" !in VariantClasses(Filled)
    ensures "text-sm" !in VariantClasses(Filled)
    ensures "text-base" !in VariantClasses(Filled)
    ensures "text-lg" !in VariantClasses(Filled)
    ensures "border-red-500" !in VariantClasses(Filled)
    ensures "focus:border-red-500" !in VariantClasses(Filled)
    ensures "focus:ring-red-500" !in VariantClasses(Filled)
    ensures "opacity-75" !in VariantClasses(Filled)
  {
  }

  lemma OutlinedMarks()
    ensures "bg-white" in VariantClasses(Outlined)
    ensures "bg-gray-100" !in VariantClasses(Outlined)
    ensures "rounded-none" !in VariantClasses(Outlined)
    ensures "text-sm" !in VariantClasses(Outlined)
    ensures "text-base" !in VariantClasses(Outlined)
    ensures "text-lg" !in VariantClasses(Outlined)
    ensures "border-red-500" !in VariantClasses(Outlined)
    ensures "focus:border-red-500" !in VariantClasses(Outlined)
    ensures "focus:ring-red-500" !in VariantClasses(Outlined)
    ensures "opacity-75" !in VariantClasses(Outlined)
  {
  }

  lemma GhostMarks()
    ensures "rounded-none" in VariantClasses(Ghost)
    ensures "bg-gray-100" !in VariantClasses(Ghost)
    ensures "bg-white" !in VariantClasses(Ghost)
    ensures "text-sm" !in VariantClasses(Ghost)
    ensures "text-base" !in VariantClasses(Ghost)
    ensures "text-lg" !in VariantClasses(Ghost)
    ensures "border-red-500" !in VariantClasses(Ghost)
    ensures "focus:border-red-500" !in VariantClasses(Ghost)
    ensures "focus:ring-red-500" !in VariantClasses(Ghost)
    ensures "opacity-75" !in VariantClasses(Ghost)
  {
  }

  lemma VariantMarks(variant: Variant)
    ensures "bg-gray-100" in VariantClasses(variant) <==> variant == Filled
    ensures "bg-white" in VariantClasses(variant) <==> variant == Outlined
    ensures "rounded-none" in VariantClasses(variant) <==> variant == Ghost
    ensures "text-sm" !in VariantClasses(variant)
    ensures "text-base" !in VariantClasses(variant)
    ensures "text-lg" !in VariantClasses(variant)
    ensures "border-red-500" !in VariantClasses(variant)
    ensures "focus:border-red-500" !in VariantClasses(variant)
    ensures "focus:ring-red-500" !in VariantClasses(variant)
    ensures "opacity-75" !in VariantClasses(variant)
  {
    FilledMarks();
    OutlinedMarks();
    GhostMarks();
  }

  lemma SizeMarks(size: Size)
    ensures "text-sm" in SizeClasses(size) <==> size == Sm
    ensures "text-base" in SizeClasses(size) <==> size == Md
    ensures "text-lg" in SizeClasses(size) <==> size == Lg
    ensures "bg-gray-100" !in SizeClasses(size)
    ensures "bg-white" !in SizeClasses(size)
    ensures "rounded-none" !in SizeClasses(size)
    ensures "border-red-500" !in SizeClasses(size)
    ensures "focus:border-red-500" !in SizeClasses(size)
    ensures "focus:ring-red-500" !in SizeClasses(size)
    ensures "opacity-75" !in SizeClasses(size)
  {
    match size
    case Sm =>
    case Md =>
    case Lg =>
  }

  lemma StateMarks()
    ensures "bg-gray-100" !in InvalidClasses
    ensures "bg-white" !in InvalidClasses
    ensures "rounded-none" !in InvalidClasses
    ensures "text-sm" !in InvalidClasses
    ensures "text-base" !in InvalidClasses
    ensures "text-lg" !in InvalidClasses
    ensures "bg-gray-100" !in LoadingClasses
    ensures "bg-white" !in LoadingClasses
    ensures "rounded-none" !in LoadingClasses
    ensures "text-sm" !in LoadingClasses
    ensures "text-base" !in LoadingClasses
    ensures "text-lg" !in LoadingClasses
    ensures "border-red-500" in InvalidClasses && "focus:border-red-500" in InvalidClasses
    ensures "focus:ring-red-500" in InvalidClasses && "opacity-75" !in InvalidClasses
    ensures "opacity-75" in LoadingClasses && "border-red-500" !in LoadingClasses
    ensures "focus:border-red-500" !in LoadingClasses && "focus:ring-red-500" !in LoadingClasses
  {
  }

  /** filled carries bg-gray-100, outlined bg-white, ghost rounded-none, and no other variant does. */
  lemma VariantMapping(variant: Variant, size: Size, invalid: bool, loading: bool)
    ensures "bg-gray-100" in InputClasses(variant, size, invalid, loading) <==> variant == Filled
    ensures "bg-white" in InputClasses(variant, size, invalid, loading) <==> variant == Outlined
    ensures "rounded-none" in InputClasses(variant, size, invalid, loading) <==> variant == Ghost
  {
    BaseMarksVariantNot();
    BaseMarksSizeNot();
    VariantMarks(variant);
    SizeMarks(size);
    StateMarks();
  }

  /** sm, md and lg carry text-sm, text-base and text-lg, so exactly one of the three. */
  lemma SizeMapping(variant: Variant, size: Size, invalid: bool, loading: bool)
    ensures "text-sm" in InputClasses(variant, size, invalid, loading) <==> size == Sm
    ensures "text-base" in InputClasses(variant, size, invalid, loading) <==> size == Md
    ensures "text-lg" in InputClasses(variant, size, invalid, loading) <==> size == Lg
  {
    BaseMarksVariantNot();
    BaseMarksSizeNot();
    VariantMarks(variant);
    SizeMarks(size);
    StateMarks();
  }

  /** invalid adds the three red classes and loading adds opacity-75; no other group holds them. */
  lemma StateFlags(variant: Variant, size: Size, invalid: bool, loading: bool)
    ensures var c := InputClasses(variant, size, invalid, loading);
      && ("border-red-500" in c <==> invalid)
      && ("focus:border-red-500" in c <==> invalid)
      && ("focus:ring-red-500" in c <==> invalid)
      && ("opacity-75" in c <==> loading)
  {
    BaseMarksStateNot();
    VariantMarks(variant);
    SizeMarks(size);
    StateMarks();
  }

  /** The two flags only append: the classes before them are those of the same props without flags. */
  lemma StateFlagsAppendOnly(variant: Variant, size: Size, invalid: bool, loading: bool)
    ensures var plain := InputClasses(variant, size, false, false);
      InputClasses(variant, size, invalid, loading)[..|plain|] == plain
  {
    var c := InputClasses(variant, size, invalid, loading);
    var plain := InputClasses(variant, size, false, false);
    assert plain == BaseClasses + VariantClasses(variant) + SizeClasses(size);
    assert c == plain + ((if invalid then InvalidClasses else []) + (if loading then LoadingClasses else []));
  }

  // -------------------------------------------------- derived expressions

  /**
   * The `type` attribute of the `<input>`: a password input with the toggle
   * enabled shows as text while the password is revealed; every other input
   * keeps its `type` prop.
   */
  function EffectiveInputType(inputType: string, showPasswordToggle: bool, showPassword: bool): (r: string)
    ensures r == inputType || r == "text"
    ensures r != inputType <==> showPasswordToggle && inputType == "password" && showPassword
  {
    if showPasswordToggle && inputType == "password" then (if showPassword then "text" else "password")
    else inputType
  }

  /**
   * The password toggle button is rendered exactly when, loading aside,
   * `showPassword` makes a difference to the input's `type`.
   */
  function PasswordToggleShown(props: InputProps): (r: bool)
    ensures r ==> !props.loading
    ensures r ==> EffectiveInputType(props.inputType, props.showPasswordToggle, true) == "text"
    ensures r ==> EffectiveInputType(props.inputType, props.showPasswordToggle, false) == "password"
    ensures !props.loading ==>
              (r <==> EffectiveInputType(props.inputType, props.showPasswordToggle, true)
                      != EffectiveInputType(props.inputType, props.showPasswordToggle, false))
  {
    props.showPasswordToggle && props.inputType == "password" && !props.loading
  }

  /**
   * The internal value in the first render: the `value` prop if it is a
   * non-empty string, else the `defaultValue` if that is non-empty, else the
   * empty string. An empty string counts as absent.
   */
  function InitialValue(value: Option<string>, defaultValue: Option<string>): (r: string)
    ensures value.Some? && value.value != "" ==> r == value.value
    ensures (value.None? || value.value == "") ==> r == defaultValue.GetOr("")
  {
    if value.Some? && value.value != "" then value.value
    else if defaultValue.Some? && defaultValue.value != "" then defaultValue.value
    else ""
  }

  /**
   * The internal value once mounted: the effect that follows the first render
   * copies any defined `value` prop, the empty string included, over the
   * initial value.
   */
  function MountedValue(value: Option<string>, defaultValue: Option<string>): (r: string)
    ensures value.Some? ==> r == value.value
    ensures value.None? ==> r == defaultValue.GetOr("")
  {
    if value.Some? then value.value else InitialValue(value, defaultValue)
  }

  /**
   * The mount effect changes the value shown by the first render only for an
   * empty `value` prop with a non-empty `defaultValue`.
   */
  lemma MountEffectMatters(value: Option<string>, defaultValue: Option<string>)
    ensures MountedValue(value, defaultValue) != InitialValue(value, defaultValue) <==>
              value == Some("") && defaultValue.GetOr("") != ""
  {
  }

  /** The clear button is rendered only when enabled, for a non-empty value, and not while loading. */
  function ClearButtonShown(props: InputProps, value: string): (r: bool)
    ensures r ==> props.showClearButton
    ensures r ==> value != "" && !props.loading
    ensures props.showClearButton && !props.loading && value != "" ==> r
  {
    props.showClearButton && value != "" && !props.loading
  }

  /** The `disabled` attribute of the `<input>`: set by the prop or while loading. */
  function InputDisabled(props: InputProps): (r: bool)
    ensures props.loading ==> r
    ensures !props.loading ==> (r <==> props.disabled)
  {
    props.disabled || props.loading
  }

  /** While loading, the input is disabled and neither the clear nor the password button is shown. */
  lemma LoadingLocksInput(props: InputProps, value: string)
    requires props.loading
    ensures InputDisabled(props)
    ensures !ClearButtonShown(props, value)
    ensures !PasswordToggleShown(props)
  {
  }

  /** The component's state for one set of props: `internalValue` and `showPassword`. */
  class InputFieldState {
    const props: InputProps
    var internalValue: string
    var showPassword: bool

    /** Mounting: the first render's initial state, then the effect's first run. */
    constructor (props: InputProps, value: Option<string>, defaultValue: Option<string>)
      ensures this.props == props
      ensures internalValue == MountedValue(value, defaultValue)
      ensures !showPassword
    {
      this.props := props;
      internalValue := InitialValue(value, defaultValue);
      showPassword := false;
      new;
      SyncValueProp(value);
    }

    /** The effect on `value`: a defined `value` prop replaces the internal value. */
    method SyncValueProp(value: Option<string>)
      modifies this
      ensures internalValue == value.GetOr(old(internalValue))
      ensures showPassword == old(showPassword)
    {
      if value.Some? {
        internalValue := value.value;
      }
    }

    /** `handleChange`: the value typed in becomes the internal value. */
    method HandleChange(newValue: string)
      modifies this
      ensures internalValue == newValue && showPassword == old(showPassword)
    {
      internalValue := newValue;
    }

    /** `handleClear`: the internal value becomes empty, which hides the clear button. */
    method HandleClear()
      modifies this
      ensures internalValue == "" && showPassword == old(showPassword)
      ensures !ClearButtonShown(props, internalValue)
    {
      internalValue := "";
    }

    /** `togglePasswordVisibility`: flips whether the password is revealed. */
    method TogglePasswordVisibility()
      modifies this
      ensures showPassword == !old(showPassword)
      ensures internalValue == old(internalValue)
    {
      showPassword := !showPassword;
    }
  }

  /**
   * tests/InputField.test.tsx:41-47: a field with `defaultValue="test"` shows the
   * clear button; clicking it empties the field and hides the button.
   */
  method ClearScenario() returns (shownBefore: bool, value: string, shownAfter: bool)
    ensures shownBefore
    ensures value == "" && !shownAfter
  {
    var props := InputProps(Outlined, Md, "text", false, false, false, true, false);
    var field := new InputFieldState(props, None, Some("test"));
    shownBefore := ClearButtonShown(field.props, field.internalValue);
    field.HandleClear();
    value := field.internalValue;
    shownAfter := ClearButtonShown(field.props, field.internalValue);
  }

  /**
   * tests/InputField.test.tsx:49-58: a password field with the toggle starts as
   * `password` and shows as `text` after one click. The second click, back to
   * `password`, goes beyond the test.
   */
  method PasswordToggleScenario() returns (buttonShown: bool, initial: string, revealed: string, hidden: string)
    ensures buttonShown
    ensures initial == "password" && revealed == "text" && hidden == "password"
  {
    var props := InputProps(Outlined, Md, "password", false, false, false, false, true);
    var field := new InputFieldState(props, None, None);
    buttonShown := PasswordToggleShown(field.props);
    initial := EffectiveInputType(props.inputType, props.showPasswordToggle, field.showPassword);
    field.TogglePasswordVisibility();
    revealed := EffectiveInputType(props.inputType, props.showPasswordToggle, field.showPassword);
    field.TogglePasswordVisibility();
    hidden := EffectiveInputType(props.inputType, props.showPasswordToggle, field.showPassword);
  }
}
