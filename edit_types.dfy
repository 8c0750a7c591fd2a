/**
 * Descriptors used while building data kinds: the labelled variants of a kind (edit types,
 * with the event specialisation) and the editable fields of a kind's rows. Both are filled in
 * with chained setters that return the object itself.
 */
module EditTypes {
  import opened Wrappers
  import opened JavaInt

  /** `InputType.TYPE_TEXT_FLAG_MULTI_LINE`: the bit of an input type that allows several lines. */
  const TYPE_TEXT_FLAG_MULTI_LINE: bv32 := 0x0002_0000

  /**
   * One labelled variant of a data kind, such as "Home" or "Work". An object built with the
   * `Event` constructor stands for an `EventEditType`, which adds the year-optional flag.
   */
  class EditType {
    /** Whether this object is an `EventEditType`. */
    const isEvent: bool
    var rawValue: Int32
    var labelRes: Int32
    var secondary: bool
    /** Rows allowed of this variant; -1 when not specified. */
    var specificMax: Int32
    var customColumn: Option<string>
    /** `mYearOptional` of an `EventEditType`. */
    var yearOptional: bool

    constructor (rawValue: Int32, labelRes: Int32)
      ensures !isEvent && this.rawValue == rawValue && this.labelRes == labelRes
      ensures !secondary && specificMax == -1 && customColumn == None && !yearOptional
    {
      isEvent := false;
      this.rawValue, this.labelRes := rawValue, labelRes;
      secondary, specificMax, customColumn, yearOptional := false, -1, None, false;
    }

    /** `new EventEditType(rawValue, labelRes)`. */
    constructor Event(rawValue: Int32, labelRes: Int32)
      ensures isEvent && this.rawValue == rawValue && this.labelRes == labelRes
      ensures !secondary && specificMax == -1 && customColumn == None && !IsYearOptional()
    {
      isEvent := true;
      this.rawValue, this.labelRes := rawValue, labelRes;
      secondary, specificMax, customColumn, yearOptional := false, -1, None, false;
    }

    method SetSecondary(secondary: bool) returns (self: EditType)
      modifies this`secondary
      ensures self == this && this.secondary == secondary
      ensures HashCode() == old(HashCode())
    {
      this.secondary := secondary;
      self := this;
    }

    method SetSpecificMax(specificMax: Int32) returns (self: EditType)
      modifies this`specificMax
      ensures self == this && this.specificMax == specificMax
      ensures HashCode() == old(HashCode())
    {
      this.specificMax := specificMax;
      self := this;
    }

    method SetCustomColumn(customColumn: Option<string>) returns (self: EditType)
      modifies this`customColumn
      ensures self == this && this.customColumn == customColumn
      ensures HashCode() == old(HashCode())
    {
      this.customColumn := customColumn;
      self := this;
    }

    /** Only an `EventEditType` has this setter. */
    method SetYearOptional(yearOptional: bool) returns (self: EditType)
      requires isEvent
      modifies this`yearOptional
      ensures self == this && IsYearOptional() == yearOptional
      ensures HashCode() == old(HashCode())
    {
      this.yearOptional := yearOptional;
      self := this;
    }

    /** Whether an event's year may be left out: false until `SetYearOptional(true)`. */
    function IsYearOptional(): (r: bool)
      reads this
      requires isEvent
      ensures r == yearOptional
    {
      yearOptional
    }

    /**
     * `equals`: `other` is an edit type (of either class) with the same raw value, which is
     * exactly when the two hash alike. Nothing equals null.
     */
    function Equals(other: EditType?): (r: bool)
      reads this, other
      ensures r <==> other != null && other.HashCode() == HashCode()
    {
      other != null && other.rawValue == rawValue
    }

    /** `hashCode`: the raw value, whatever the class and the other fields. */
    function HashCode(): (h: Int32)
      reads this
      ensures h == rawValue
    {
      rawValue
    }
  }

  /**
   * Two edit types with the same raw value are interchangeable for equality and hashing,
   * whatever their class, labels, secondary flag, maximum, custom column or year flag.
   */
  lemma EqualityIgnoresOtherAttributes(a: EditType, b: EditType, c: EditType?)
    requires a.rawValue == b.rawValue
    ensures a.Equals(b) && b.Equals(a) && a.HashCode() == b.HashCode()
    ensures a.Equals(c) == b.Equals(c)
    ensures c != null ==> c.Equals(a) == c.Equals(b)
  {
  }

  /** Equality is reflexive, symmetric and transitive. */
  lemma EqualsIsEquivalence(a: EditType, b: EditType, c: EditType)
    ensures a.Equals(a)
    ensures a.Equals(b) ==> b.Equals(a)
    ensures a.Equals(b) && b.Equals(c) ==> a.Equals(c)
  {
  }

  /** Equal edit types hash equally; the hash is the raw value. */
  lemma EqualsAgreesWithHashCode(a: EditType, b: EditType)
    ensures a.HashCode() == a.rawValue
    ensures a.Equals(b) ==> a.HashCode() == b.HashCode()
  {
  }

  /** One editable field of a data kind's rows, such as a phone number. */
  class EditField {
    var column: Option<string>
    var titleRes: Int32
    var inputType: bv32
    var minLines: Int32
    var optional: bool
    var shortForm: bool
    var longForm: bool
    var isFullName: bool

    constructor (column: Option<string>, titleRes: Int32)
      ensures this.column == column && this.titleRes == titleRes && inputType == 0 && !IsMultiLine()
      ensures minLines == 0 && !optional && !shortForm && !longForm && !isFullName
    {
      this.column, this.titleRes, inputType := column, titleRes, 0;
      minLines, optional, shortForm, longForm, isFullName := 0, false, false, false, false;
    }

    constructor WithInputType(column: Option<string>, titleRes: Int32, inputType: bv32)
      ensures this.column == column && this.titleRes == titleRes && this.inputType == inputType
      ensures minLines == 0 && !optional && !shortForm && !longForm && !isFullName
    {
      this.column, this.titleRes, this.inputType := column, titleRes, inputType;
      minLines, optional, shortForm, longForm, isFullName := 0, false, false, false, false;
    }

    method SetOptional(optional: bool) returns (self: EditField)
      modifies this`optional
      ensures self == this && this.optional == optional
    {
      this.optional := optional;
      self := this;
    }

    method SetShortForm(shortForm: bool) returns (self: EditField)
      modifies this`shortForm
      ensures self == this && this.shortForm == shortForm
    {
      this.shortForm := shortForm;
      self := this;
    }

    method SetLongForm(longForm: bool) returns (self: EditField)
      modifies this`longForm
      ensures self == this && this.longForm == longForm
    {
      this.longForm := longForm;
      self := this;
    }

    method SetMinLines(minLines: Int32) returns (self: EditField)
      modifies this`minLines
      ensures self == this && this.minLines == minLines
    {
      this.minLines := minLines;
      self := this;
    }

    method SetIsFullName(isFullName: bool) returns (self: EditField)
      modifies this`isFullName
      ensures self == this && this.isFullName == isFullName
    {
      this.isFullName := isFullName;
      self := this;
    }

    /** Whether the field accepts several lines: bit 17 of its input type, the multi-line flag. */
    function IsMultiLine(): (r: bool)
      reads this
      ensures r <==> (inputType >> 17) & 1 == 1
    {
      inputType & TYPE_TEXT_FLAG_MULTI_LINE != 0
    }
  }

  /**
   * Only the multi-line bit matters: a field whose input type is another's with the flag set is
   * multi-line, one with the flag cleared is single-line, and fields whose input types agree on
   * that bit agree on being multi-line, whatever their other bits.
   */
  lemma MultiLineFollowsFlag(f: EditField, g: EditField)
    ensures f.inputType == g.inputType | TYPE_TEXT_FLAG_MULTI_LINE ==> f.IsMultiLine()
    ensures f.inputType == g.inputType & !TYPE_TEXT_FLAG_MULTI_LINE ==> !f.IsMultiLine()
    ensures f.inputType & TYPE_TEXT_FLAG_MULTI_LINE == g.inputType & TYPE_TEXT_FLAG_MULTI_LINE ==>
              f.IsMultiLine() == g.IsMultiLine()
  {
  }
}
