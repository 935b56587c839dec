/** The add form (src/components/AddTodoForm.tsx): a text buffer, and a submit
    that passes the buffer on only when it is not blank. */
module AddTodoForm {

  datatype Option<T> = None | Some(value: T)

  /** The characters `String.prototype.trim` strips (ECMAScript 2024, section
      22.1.3.32): WhiteSpace (TAB, VT, FF, SPACE, NBSP, ZWNBSP and the Zs
      category) and LineTerminator (LF, CR, LS, PS). */
  predicate IsWhitespace(c: char)
  {
    var n := c as int;
    n == 0x09 || n == 0x0A || n == 0x0B || n == 0x0C || n == 0x0D || n == 0x20 ||
    n == 0xA0 || n == 0x1680 || (0x2000 <= n <= 0x200A) || n == 0x2028 ||
    n == 0x2029 || n == 0x202F || n == 0x205F || n == 0x3000 || n == 0xFEFF
  }

  /** Space, tab, line feed and carriage return are whitespace; ASCII letters
      and digits are not. */
  lemma WhitespaceSet(c: char)
    ensures c == ' ' || c == '\t' || c == '\n' || c == '\r' ==> IsWhitespace(c)
    ensures 'a' <= c <= 'z' || 'A' <= c <= 'Z' || '0' <= c <= '9' ==> !IsWhitespace(c)
  {
  }

  /** Every character of the text is whitespace (the empty text included). */
  predicate AllWhitespace(s: string)
  {
    forall k :: 0 <= k < |s| ==> IsWhitespace(s[k])
  }

  /** Drop leading whitespace. */
  function TrimStart(s: string): (r: string)
    ensures |r| <= |s| && r == s[|s| - |r|..]
    ensures AllWhitespace(s[..|s| - |r|])
    ensures r != [] ==> !IsWhitespace(r[0])
  {
    if s != [] && IsWhitespace(s[0]) then TrimStart(s[1..]) else s
  }

  /** Drop trailing whitespace. */
  function TrimEnd(s: string): (r: string)
    ensures |r| <= |s| && r == s[..|r|]
    ensures AllWhitespace(s[|r|..])
    ensures r != [] ==> !IsWhitespace(r[|r| - 1])
  {
    if s != [] && IsWhitespace(s[|s| - 1]) then TrimEnd(s[..|s| - 1]) else s
  }

  /** `r` is what is left of `s` when the whitespace before position `i` and
      after `r` is cut off: a contiguous slice of `s` starting at `i`, with only
      whitespace around it and no whitespace at either of its ends. */
  predicate TrimmedAt(s: string, i: int, r: string)
  {
    && 0 <= i && i + |r| <= |s|
    && r == s[i..i + |r|]
    && AllWhitespace(s[..i])
    && AllWhitespace(s[i + |r|..])
    && (r != [] ==> !IsWhitespace(r[0]) && !IsWhitespace(r[|r| - 1]))
  }

  /** Cutting whitespace off the front of `s` and then off the back of what is
      left gives the trimmed slice of `s`. */
  lemma TrimSlice(s: string, t: string, r: string)
    requires |t| <= |s| && t == s[|s| - |t|..]
    requires AllWhitespace(s[..|s| - |t|])
    requires t != [] ==> !IsWhitespace(t[0])
    requires |r| <= |t| && r == t[..|r|]
    requires AllWhitespace(t[|r|..])
    requires r != [] ==> !IsWhitespace(r[|r| - 1])
    ensures TrimmedAt(s, |s| - |t|, r)
  {
    var i := |s| - |t|;
    assert s[i + |r|..] == t[|r|..];
    assert r != [] ==> r[0] == t[0];
  }

  /** `trim()`: drop whitespace at both ends. The result is the slice of the
      input that starts where the leading whitespace ends; everything before
      and after it is whitespace, and it neither starts nor ends with
      whitespace. */
  function Trim(s: string): (r: string)
    ensures TrimmedAt(s, |s| - |TrimStart(s)|, r)
  {
    TrimSlice(s, TrimStart(s), TrimEnd(TrimStart(s)));
    TrimEnd(TrimStart(s))
  }

  /** The guard `!newTodo.trim()`: the trimmed text is the empty string. */
  predicate IsBlank(s: string)
  {
    Trim(s) == []
  }

  /** A text is blank exactly when every character of it is whitespace. */
  lemma BlankIffAllWhitespace(s: string)
    ensures IsBlank(s) <==> AllWhitespace(s)
  {
  }

  /** Trimming twice is trimming once. */
  lemma TrimIdempotent(s: string)
    ensures Trim(Trim(s)) == Trim(s)
  {
    var r := Trim(s);
    assert TrimStart(r) == r;
    assert TrimEnd(r) == r;
  }

  /** What one submit passes to the add callback: the raw buffer, unless it is blank. */
  function Submitted(buffer: string): (r: Option<string>)
    ensures r.None? <==> AllWhitespace(buffer)
    ensures r.Some? ==> r.value == buffer && !IsBlank(r.value)
  {
    BlankIffAllWhitespace(buffer);
    if IsBlank(buffer) then None else Some(buffer)
  }

  /** The form's local state: the text currently in the input field. */
  class Form {
    var buffer: string

    /** The field starts empty. */
    constructor ()
      ensures buffer == ""
    {
      buffer := "";
    }

    /** Typing replaces the buffer with the field's new value. */
    method Change(value: string)
      modifies this
      ensures buffer == value
    {
      buffer := value;
    }

    /** Submit: a blank buffer emits nothing and stays as it is; otherwise the
        untrimmed buffer is emitted and the field is cleared. */
    method Submit() returns (emitted: Option<string>)
      modifies this
      ensures emitted == Submitted(old(buffer))
      ensures buffer == if emitted.None? then old(buffer) else ""
    {
      if Trim(buffer) == [] {
        return None;
      }
      emitted := Some(buffer);
      buffer := "";
    }
  }

  /** Empty and space-only input emits nothing; other input is emitted untrimmed. */
  lemma SubmittedExamples()
    ensures Submitted("") == None
    ensures Submitted("   ") == None
    ensures Submitted(" Write tests ") == Some(" Write tests ")
  {
    assert !IsWhitespace(" Write tests "[1]);
  }
}
