/** Rendering of templates into a reused buffer, with the escaping of property values. */
module Template {
  import opened Options

  datatype Mode = NoEscape | SqlEscape | StdSqlEscape | JsonEscape

  /** Template entries; a field carries the value its property has in the message. */
  datatype Entry = Constant(text: string) | Field(value: string) | Invalid

  const ALLOC_INC: nat := 128
  const EXTRA_SPACE: nat := 3

  // ----- escaping -----

  predicate Special(mode: Mode, c: char) {
    match mode
    case NoEscape => false
    case SqlEscape => c == '\'' || c == '\\'
    case StdSqlEscape => c == '\''
    case JsonEscape => c == '"' || c == '\\'
  }

  function Marker(mode: Mode): char { if mode == StdSqlEscape then '\'' else '\\' }

  /** Every special character gets a marker in front. */
  function Escape(mode: Mode, s: string): string {
    if s == [] then []
    else (if Special(mode, s[0]) then [Marker(mode), s[0]] else [s[0]]) + Escape(mode, s[1..])
  }

  /** The reader of escaped text: a marker stands for the special character behind it, and no
      special character stands alone. */
  function Unescape(mode: Mode, s: string): Option<string> {
    if s == [] then Some([])
    else if mode != NoEscape && s[0] == Marker(mode) then
      if |s| >= 2 && Special(mode, s[1]) then
        match Unescape(mode, s[2..]) { case None => None case Some(t) => Some([s[1]] + t) }
      else None
    else if Special(mode, s[0]) then None
    else match Unescape(mode, s[1..]) { case None => None case Some(t) => Some([s[0]] + t) }
  }

  function Specials(mode: Mode, s: string): nat {
    if s == [] then 0 else (if Special(mode, s[0]) then 1 else 0) + Specials(mode, s[1..])
  }

  /** Escaping loses nothing and adds one byte per special character. */
  lemma {:induction false} EscapeRoundTrip(mode: Mode, s: string)
    ensures Unescape(mode, Escape(mode, s)) == Some(s)
    ensures |Escape(mode, s)| == |s| + Specials(mode, s)
  {
    if s != [] {
      EscapeRoundTrip(mode, s[1..]);
      var e := Escape(mode, s[1..]);
      if Special(mode, s[0]) {
        assert Escape(mode, s)[2..] == e;
      } else {
        assert Escape(mode, s)[1..] == e;
      }
      assert [s[0]] + s[1..] == s;
    }
  }

  /** The test before the escaping: for JSON it looks for the first ordinary character. */
  predicate NothingToDo(mode: Mode, s: string) {
    if mode == JsonEscape then forall i :: 0 <= i < |s| ==> Special(mode, s[i])
    else forall i :: 0 <= i < |s| ==> !Special(mode, s[i])
  }

  function Value(mode: Mode, s: string): string { if NothingToDo(mode, s) then s else Escape(mode, s) }

  lemma {:induction false} EscapeAll(mode: Mode, s: string)
    ensures (forall i :: 0 <= i < |s| ==> !Special(mode, s[i])) ==> Escape(mode, s) == s
    ensures Specials(mode, s) > 0 ==> exists i :: 0 <= i < |s| && Special(mode, s[i])
    ensures Escape(mode, s) == s ==> Specials(mode, s) == 0
  {
    EscapeRoundTrip(mode, s);
    if s != [] {
      EscapeAll(mode, s[1..]);
      assert [s[0]] + s[1..] == s;
      if forall i :: 0 <= i < |s| ==> !Special(mode, s[i]) {
        assert forall i :: 0 <= i < |s[1..]| ==> !Special(mode, s[1..][i]);
      }
      if Specials(mode, s[1..]) > 0 {
        var i :| 0 <= i < |s[1..]| && Special(mode, s[1..][i]);
        assert Special(mode, s[i + 1]);
      }
    }
  }

  /** In the SQL modes a value is always escaped. A JSON value is, exactly if it is empty or
      has a character that is neither a quote nor a backslash. */
  lemma ValueIsEscaped(mode: Mode, s: string)
    ensures mode != JsonEscape ==> Value(mode, s) == Escape(mode, s)
    ensures mode == JsonEscape ==>
      (Value(mode, s) == Escape(mode, s) <==> s == [] || exists i :: 0 <= i < |s| && !Special(mode, s[i]))
  {
    EscapeAll(mode, s);
    if mode == JsonEscape && s != [] && NothingToDo(mode, s) {
      assert Special(mode, s[0]);
    }
  }

  /** Two quotes are not escaped for JSON. */
  lemma JsonExample()
    ensures Value(JsonEscape, "\"\"") == "\"\"" && Unescape(JsonEscape, Value(JsonEscape, "\"\"")) == None
    ensures Unescape(JsonEscape, Value(JsonEscape, "\"a")) == Some("\"a")
  {
    var s := "\"a";
    assert !Special(JsonEscape, s[1]);
    ValueIsEscaped(JsonEscape, s);
    EscapeRoundTrip(JsonEscape, s);
  }

  /** The first loop: whether there is nothing to escape. */
  method CheckValue(s: string, mode: Mode) returns (nothing: bool)
    ensures nothing == NothingToDo(mode, s)
  {
    hide Special;
    var p := 0;
    while p < |s| && (Special(mode, s[p]) <==> mode == JsonEscape)
      invariant p <= |s|
      invariant forall i :: 0 <= i < p ==> (Special(mode, s[i]) <==> mode == JsonEscape)
    {
      p := p + 1;
    }
    nothing := p == |s|;
  }

  lemma EscapeStep(mode: Mode, s: string, p: nat, done: string)
    requires p < |s|
    ensures done + (if Special(mode, s[p]) then [Marker(mode)] else []) + [s[p]] + Escape(mode, s[p + 1..])
      == done + Escape(mode, s[p..])
    ensures Specials(mode, s[p..]) == (if Special(mode, s[p]) then 1 else 0) + Specials(mode, s[p + 1..])
  {
    hide Special, Marker;
    assert s[p..][1..] == s[p + 1..] && s[p..][0] == s[p];
  }

  /** The second loop: the escaped text and its length. */
  method EscapeText(s: string, length: nat, mode: Mode) returns (r: string, iLen: nat)
    requires length == |s|
    ensures r == Escape(mode, s) && iLen == |s| + Specials(mode, s)
  {
    hide Special, Marker, Escape, Specials;
    var p := 0;
    iLen, r := length, [];
    assert s[0..] == s && [] + Escape(mode, s) == Escape(mode, s);
    while p < |s|
      invariant p <= |s|
      invariant r + Escape(mode, s[p..]) == Escape(mode, s)
      invariant iLen + Specials(mode, s[p..]) == |s| + Specials(mode, s)
    {
      EscapeStep(mode, s, p, r);
      if Special(mode, s[p]) {
        r := r + [Marker(mode)];
        iLen := iLen + 1;
      } else {
        assert r + [] == r;
      }
      r := r + [s[p]];
      p := p + 1;
    }
    assert s[p..] == [];
    NothingEscaped(mode);
    assert r + [] == r;
  }

  lemma NothingEscaped(mode: Mode)
    ensures Escape(mode, []) == [] && Specials(mode, []) == 0
  {
  }

  /** doEscape; the value is a C string, so it has no terminator inside. */
  method DoEscape(s: string, length: nat, mode: Mode) returns (r: string, iLen: nat)
    requires mode != NoEscape && length == |s|
    ensures r == Value(mode, s) && iLen == |r|
  {
    hide NothingToDo, Escape, Specials;
    var nothing := CheckValue(s, mode);
    if nothing { return s, length; }
    r, iLen := EscapeText(s, length, mode);
    EscapeRoundTrip(mode, s);
  }

  // ----- rendering -----

  function EntryText(mode: Mode, e: Entry): string {
    match e
    case Constant(text) => text
    case Field(value) => if mode == NoEscape then value else Value(mode, value)
    case Invalid => "*LOGIC ERROR*"
  }

  function Rendered(mode: Mode, entries: seq<Entry>): string {
    if entries == [] then [] else EntryText(mode, entries[0]) + Rendered(mode, entries[1..])
  }

  method EntryValue(mode: Mode, e: Entry) returns (val: string)
    ensures val == EntryText(mode, e)
  {
    hide Value;
    match e {
      case Constant(text) => val := text;
      case Field(value) =>
        val := value;
        if mode != NoEscape {
          var iLenVal;
          val, iLenVal := DoEscape(value, |value|, mode);
        }
      case Invalid => val := "*LOGIC ERROR*";
    }
  }

  lemma RenderedNothing(mode: Mode)
    ensures Rendered(mode, []) == []
  {
  }

  lemma RenderedStep(mode: Mode, entries: seq<Entry>, k: nat, done: string)
    requires k < |entries|
    ensures done + EntryText(mode, entries[k]) + Rendered(mode, entries[k + 1..]) == done + Rendered(mode, entries[k..])
  {
    assert entries[k..][1..] == entries[k + 1..];
    assert done + EntryText(mode, entries[k]) + Rendered(mode, entries[k + 1..])
        == done + (EntryText(mode, entries[k]) + Rendered(mode, entries[k + 1..]));
  }

  /** actWrkrIParams: the buffer, its size and the length of the text in it. */
  class IParam {
    var param: array<char>
    var lenBuf: nat
    var lenStr: nat

    constructor ()
      ensures Valid() && lenBuf == 0 && lenStr == 0 && fresh(param)
    {
      param := new char[0];
      lenBuf, lenStr := 0, 0;
    }

    ghost predicate Valid()
      reads this
    {
      param.Length == lenBuf
    }

    /** ExtendBuf: the new size is a multiple of 128 above the size asked for, and may be
        smaller than before. */
    method ExtendBuf(iMinSize: nat)
      requires Valid()
      modifies this
      ensures Valid() && fresh(param) && lenStr == old(lenStr)
      ensures iMinSize < lenBuf <= iMinSize + ALLOC_INC && lenBuf % ALLOC_INC == 0
      ensures forall i :: 0 <= i < old(lenBuf) && i < lenBuf ==> param[i] == old(param[i])
    {
      var iNewSize := (iMinSize / ALLOC_INC + 1) * ALLOC_INC;
      var pNewBuf := new char[iNewSize];
      for i := 0 to if lenBuf < iNewSize then lenBuf else iNewSize
        modifies pNewBuf
        invariant forall k :: 0 <= k < i ==> pNewBuf[k] == param[k]
      {
        pNewBuf[i] := param[i];
      }
      param, lenBuf := pNewBuf, iNewSize;
    }

    method Append(iBuf: nat, val: string)
      requires Valid() && iBuf + |val| <= lenBuf
      modifies param
      ensures param[..iBuf + |val|] == old(param[..iBuf]) + val
    {
      for i := 0 to |val|
        invariant param[..iBuf] == old(param[..iBuf])
        invariant param[iBuf..iBuf + i] == val[..i]
      {
        param[iBuf + i] := val[i];
      }
      assert param[..iBuf + |val|] == param[..iBuf] + param[iBuf..iBuf + |val|];
    }

    /** One value behind the text so far, with room left for the terminator. */
    method Add(iBuf: nat, val: string)
      requires Valid() && (iBuf < lenBuf || iBuf == lenBuf == 0)
      modifies this, param
      ensures Valid() && (param == old(param) || fresh(param)) && lenStr == old(lenStr)
      ensures iBuf + |val| < lenBuf || iBuf + |val| == lenBuf == 0
      ensures param[..iBuf + |val|] == old(param[..iBuf]) + val
    {
      if |val| > 0 {
        if iBuf + |val| + EXTRA_SPACE >= lenBuf {
          ghost var before := param[..iBuf];
          ExtendBuf(iBuf + |val| + 1);
          assert param[..iBuf] == before;
        }
        Append(iBuf, val);
      }
    }

    /** tplToString, for templates with entries that are not in jsonf format. */
    method TplToString(mode: Mode, entries: seq<Entry>)
      requires Valid()
      modifies this, param
      ensures Valid() && (param == old(param) || fresh(param))
      ensures lenStr == |Rendered(mode, entries)| < lenBuf
      ensures param[..lenStr] == Rendered(mode, entries) && param[lenStr] == '\0'
    {
      hide Rendered, Value, EntryText;
      var iBuf: nat, k: nat := 0, 0;
      assert entries[0..] == entries && [] + Rendered(mode, entries) == Rendered(mode, entries);
      while k < |entries|
        invariant k <= |entries| && Valid() && (param == old(param) || fresh(param))
        invariant iBuf < lenBuf || iBuf == lenBuf == 0
        invariant param[..iBuf] + Rendered(mode, entries[k..]) == Rendered(mode, entries)
      {
        var val := EntryValue(mode, entries[k]);
        RenderedStep(mode, entries, k, param[..iBuf]);
        Add(iBuf, val);
        iBuf, k := iBuf + |val|, k + 1;
      }
      assert entries[k..] == [];
      RenderedNothing(mode);
      if iBuf == lenBuf {
        ghost var before := param[..iBuf];
        ExtendBuf(iBuf + 1);
        assert param[..iBuf] == before;
      }
      param[iBuf] := '\0';
      lenStr := iBuf;
    }
  }
}
