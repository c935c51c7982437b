/** The string descriptors of a device (section 9.6.7 of the USB 2.0 specification): a list of strings per index, one
    for each language, and the string at index zero that lists the languages. */
module StringTables {
  import opened Wire
  import opened DefinitionErrors

  const US_ENGLISH: word := 0x0409

  // ---------------------------------------------------------------- strings

  class USBString {
    const index: byte
    const languageId: word
    var bLength: byte
    var wData: seq<word> // the units allocated behind the two header bytes

    /** The length byte tells how many units there are. */
    predicate Sound()
      reads this
    {
      bLength >= 2 && |wData| == bLength / 2 - 1
    }

    /** From text of 16-bit units that ends in a zero. */
    constructor FromUnicode(value: seq<word>, index: byte, languageId: word)
      requires 0 in value
      ensures this.index == index && this.languageId == languageId
      ensures wData == Text(value) && bLength == U8(2 * |Text(value)| + 2)
      ensures Sound() <==> |wData| <= 126
    {
      this.index, this.languageId := index, languageId;
      var len := TextLength(value);
      wData := value[..len];
      bLength := U8(2 * (len + 1));
    }

    function GetCharCount(): byte
      reads this
    {
      U8(bLength / 2 - 1)
    }

    /** Only the language list may grow. Its length is a byte: a 127th language makes it zero. */
    method AppendChar(u: word)
      requires Sound()
      modifies this
      ensures if index != 0 || languageId != 0 then wData == old(wData) && bLength == old(bLength)
              else wData == old(wData) + [u] && bLength == U8(old(bLength) + 2)
      ensures Sound() <==> old(bLength) < 254 || index != 0 || languageId != 0
    {
      if index != 0 || languageId != 0 {
        return;
      }
      wData := wData + [u];
      bLength := U8(bLength + 2);
    }
  }

  /** The units before the first zero. */
  function Text(value: seq<word>): seq<word> {
    if value == [] || value[0] == 0 then [] else [value[0]] + Text(value[1..])
  }

  lemma {:induction false} TextBefore(value: seq<word>, len: nat)
    requires len < |value| && value[len] == 0 && forall k :: 0 <= k < len ==> value[k] != 0
    ensures Text(value) == value[..len]
  {
    if len != 0 {
      TextBefore(value[1..], len - 1);
      assert value[..len] == [value[0]] + value[1..][..len - 1];
    }
  }

  method TextLength(value: seq<word>) returns (len: nat)
    requires 0 in value
    ensures len < |value| && Text(value) == value[..len]
  {
    ghost var k :| 0 <= k < |value| && value[k] == 0;
    len := 0;
    while value[len] != 0
      invariant 0 <= len <= k && forall m :: 0 <= m < len ==> value[m] != 0
      decreases k - len
    {
      len := len + 1;
    }
    TextBefore(value, len);
  }

  // ---------------------------------------------------------------- the table as a value

  type Row = Option<seq<USBString>>

  type Table = seq<Row>

  /** A row after `add_string`: every string of the language is replaced, and the new one is put at the end besides. */
  function Replaced(row: seq<USBString>, s: USBString): (r: seq<USBString>)
    ensures |r| == |row|
  {
    seq(|row|, i requires 0 <= i < |row| => if row[i].languageId == s.languageId then s else row[i])
  }

  function Grown(t: Table, n: nat): (r: Table)
    ensures |r| == if n > |t| then n else |t|
  {
    if n > |t| then t + seq(n - |t|, _ => None) else t
  }

  function WithString(t: Table, s: USBString): (r: Table)
    ensures s.index < |r|
  {
    var g := Grown(t, s.index + 1);
    g[s.index := Some(if g[s.index].Some? then Replaced(g[s.index].value, s) + [s] else [s])]
  }

  /** The first string of a language in a row. */
  function Find(row: seq<USBString>, language: word): (r: Option<USBString>)
  {
    if row == [] then None
    else if row[0].languageId == language then Some(row[0])
    else Find(row[1..], language)
  }

  function LookUp(t: Table, index: byte, language: word): Option<USBString> {
    if index >= |t| || t[index].None? then None else Find(t[index].value, language)
  }

  lemma {:induction false} FindReplaced(row: seq<USBString>, s: USBString, language: word)
    ensures Find(Replaced(row, s) + [s], language) == if language == s.languageId then Some(s) else Find(row, language)
  {
    if row != [] {
      FindReplaced(row[1..], s, language);
      assert (Replaced(row, s) + [s])[1..] == Replaced(row[1..], s) + [s];
    }
  }

  lemma LookUpAdded(t: Table, s: USBString, index: byte, language: word)
    ensures LookUp(WithString(t, s), index, language) ==
            if index == s.index && language == s.languageId then Some(s) else LookUp(t, index, language)
  {
    hide Find, Replaced;
    if index == s.index {
      var g := Grown(t, s.index + 1);
      if g[index].Some? {
        FindReplaced(g[index].value, s, language);
      } else {
        FindOne(s, language);
      }
    }
  }

  lemma FindOne(s: USBString, language: word)
    ensures Find([s], language) == if language == s.languageId then Some(s) else None
  {
  }

  function AddAll(t: Table, ss: seq<USBString>): Table {
    if ss == [] then t else WithString(AddAll(t, ss[..|ss| - 1]), ss[|ss| - 1])
  }

  /** The last string added for an index and a language. */
  function Last(ss: seq<USBString>, index: byte, language: word): Option<USBString> {
    if ss == [] then None
    else
      var s := ss[|ss| - 1];
      if s.index == index && s.languageId == language then Some(s) else Last(ss[..|ss| - 1], index, language)
  }

  /** The table is a map: whatever rows double up and however the table grew, a lookup finds the string added last for
      that index and language, or what was there before. */
  lemma {:induction false} TableIsMap(t: Table, ss: seq<USBString>, index: byte, language: word)
    ensures LookUp(AddAll(t, ss), index, language) ==
            if Last(ss, index, language).Some? then Last(ss, index, language) else LookUp(t, index, language)
  {
    hide LookUp, WithString;
    if ss != [] {
      TableIsMap(t, ss[..|ss| - 1], index, language);
      LookUpAdded(AddAll(t, ss[..|ss| - 1]), ss[|ss| - 1], index, language);
    }
  }

  // ---------------------------------------------------------------- languages

  function WithLanguage(languages: seq<word>, l: word): seq<word> {
    if l in languages then languages else languages + [l]
  }

  /** The language list after adding strings none of which is the list itself. */
  function Languages(start: seq<word>, ss: seq<USBString>): seq<word> {
    if ss == [] then start else WithLanguage(Languages(start, ss[..|ss| - 1]), ss[|ss| - 1].languageId)
  }

  ghost predicate Distinct(ls: seq<word>) {
    forall i, j :: 0 <= i < j < |ls| ==> ls[i] != ls[j]
  }

  /** The list stays free of doubles, and lists what it listed and every language used, and nothing else. */
  lemma {:induction false} LanguagesComplete(start: seq<word>, ss: seq<USBString>)
    ensures Distinct(start) ==> Distinct(Languages(start, ss))
    ensures forall l :: l in Languages(start, ss) <==> l in start || exists k :: 0 <= k < |ss| && ss[k].languageId == l
  {
    if ss != [] {
      var before, s := ss[..|ss| - 1], ss[|ss| - 1];
      LanguagesComplete(start, before);
      forall l ensures l in Languages(start, ss) <==> l in start || exists k :: 0 <= k < |ss| && ss[k].languageId == l {
        if exists k :: 0 <= k < |before| && before[k].languageId == l {
          ghost var k :| 0 <= k < |before| && before[k].languageId == l;
          assert ss[k].languageId == l;
        } else if l == s.languageId {
          assert ss[|ss| - 1].languageId == l;
        }
      }
    }
  }

  /** The list itself stays where it is as long as no other string is added for index and language zero. */
  lemma ListStays(t: Table, s: USBString)
    requires t != [] && t[0].Some? && t[0].value != [] && t[0].value[0].languageId == 0
    requires s.index != 0 || s.languageId != 0
    ensures var r := WithString(t, s); r != [] && r[0].Some? && r[0].value != [] && r[0].value[0] == t[0].value[0]
  {
  }

  // ---------------------------------------------------------------- validation

  /** The verdict on a row: no error exactly when it has a string for each language from the `n`-th on. */
  function RowError(row: seq<USBString>, languages: seq<word>, n: nat, index: byte): (e: DefinitionError)
    requires n <= |languages|
    ensures e.Ok() ==> e == OK
    ensures e.Ok() <==> forall m :: n <= m < |languages| ==> Find(row, languages[m]).Some?
    decreases |languages| - n
  {
    if n == |languages| then OK
    else if Find(row, languages[n]).None? then DefinitionError(MissingLanguage, languages[n], StringObject, index, 0,
        0, 0)
    else RowError(row, languages, n + 1, index)
  }

  /** Whether a string is there in every language. Index zero stands for no string. */
  ghost predicate StringDefined(t: Table, languages: seq<word>, index: byte) {
    index == 0 || (index < |t| && t[index].Some? && forall m :: 0 <= m < |languages| ==>
        LookUp(t, index, languages[m]).Some?)
  }

  function StringError(t: Table, languages: seq<word>, index: byte): (e: DefinitionError)
    requires index < |t|
    ensures e.Ok() ==> e == OK
    ensures e.Ok() <==> StringDefined(t, languages, index)
  {
    if index == 0 then OK
    else if t[index].None? then DefinitionError(NullObject, 0, StringObject, index, 0, 0, 0)
    else RowError(t[index].value, languages, 0, index)
  }

  // ---------------------------------------------------------------- the table of a device

  class StringTable {
    var strings: array<Row>
    var maxStringIdx: byte

    ghost predicate Valid()
      reads this
    {
      strings.Length == maxStringIdx + 1
    }

    function Rows(): Table
      reads this, strings
    {
      strings[..]
    }

    /** There is a language list. */
    predicate HasList()
      reads this, strings
    {
      strings.Length > 0 && strings[0].Some? && strings[0].value != []
    }

    function List(): USBString
      requires HasList()
      reads this, strings
    {
      strings[0].value[0]
    }

    /** The table of a device made from its descriptor alone. */
    constructor ()
      ensures Valid() && fresh(strings) && HasList() && fresh(List()) && List().Sound()
      ensures List().wData == [US_ENGLISH] && List().index == 0 && List().languageId == 0
      ensures Rows() == [Some([List()])]
    {
      maxStringIdx := 0;
      var list := new USBString.FromUnicode([US_ENGLISH, 0], 0, 0);
      assert Text([US_ENGLISH, 0]) == [US_ENGLISH] by {
        assert [US_ENGLISH, 0][1..] == [0];
      }
      strings := new Row[1](_ => Some([list]));
    }

    /** The language list grows by languages not listed yet. Appending a 127th makes its length byte wrap, and it is no
        longer sound. */
    method AddLanguage(languageId: word)
      requires HasList() && List().Sound() && List().index == 0 && List().languageId == 0
      modifies List()
      ensures List().wData == WithLanguage(old(List().wData), languageId)
      ensures List().Sound() <==> |List().wData| <= 126
    {
      var list := List();
      var count := list.GetCharCount();
      for i := 0 to count
        invariant languageId !in list.wData[..i]
      {
        if languageId == list.wData[i] {
          return;
        }
      }
      assert list.wData[..count] == list.wData;
      list.AppendChar(languageId);
    }

    method AddString(s: USBString)
      requires Valid()
      requires s.index != 0 || s.languageId != 0 ==>
                 HasList() && List().Sound() && List().index == 0 && List().languageId == 0
      modifies this, strings, if s.index != 0 || s.languageId != 0 then {List()} else {}
      ensures Valid() && (strings == old(strings) || fresh(strings))
      ensures Rows() == WithString(old(Rows()), s)
      ensures s.index != 0 || s.languageId != 0 ==>
                && HasList() && List() == old(List())
                && List().wData == WithLanguage(old(List().wData), s.languageId)
                && (List().Sound() <==> |List().wData| <= 126)
    {
      ghost var was := Rows();
      var index := s.index;
      if index != 0 || s.languageId != 0 {
        AddLanguage(s.languageId);
        ListStays(was, s);
      }
      if index > maxStringIdx {
        var newStrings :=
            new Row[index + 1](i requires 0 <= i <= index reads this,
                strings => if i < strings.Length then strings[i] else None);
        strings := newStrings;
        maxStringIdx := index;
      }
      assert Rows() == Grown(was, index + 1);
      if strings[index].Some? {
        var row := strings[index].value;
        ghost var start := row;
        var i := 0;
        while i < |row|
          invariant 0 <= i <= |row| == |start|
          invariant forall k :: 0 <= k < i ==> row[k] == Replaced(start, s)[k]
          invariant forall k :: i <= k < |row| ==> row[k] == start[k]
        {
          if row[i].languageId == s.languageId {
            row := row[i := s];
          }
          i := i + 1;
        }
        assert row == Replaced(start, s);
        strings[index] := Some(row + [s]);
      } else {
        strings[index] := Some([s]);
      }
    }

    /** Language zero stands for the first listed one. */
    method GetString(index: byte, languageId: word) returns (r: Option<USBString>)
      requires Valid()
      requires languageId == 0 && index != 0 && index < strings.Length && strings[index].Some? ==>
                 HasList() && List().wData != []
      ensures var l := if languageId == 0 && index != 0 && HasList() && List().wData != [] then List().wData[0]
              else languageId;
              r == LookUp(Rows(), index, l)
    {
      if index > maxStringIdx {
        return None;
      }
      if strings[index].None? {
        return None;
      }
      var l := languageId;
      if languageId == 0 && index != 0 {
        l := List().wData[0];
      }
      r := FindInRow(strings[index].value, l);
    }

    method FindInRow(row: seq<USBString>, language: word) returns (r: Option<USBString>)
      ensures r == Find(row, language)
    {
      var i := 0;
      while i < |row|
        invariant 0 <= i <= |row|
        invariant Find(row, language) == Find(row[i..], language)
      {
        if row[i].languageId == language {
          return Some(row[i]);
        }
        assert row[i..][1..] == row[i + 1..];
        i := i + 1;
      }
      return None;
    }

    /** `is_string_defined`. The index is not checked against the table. */
    method IsStringDefined(index: byte) returns (e: DefinitionError)
      requires Valid() && index < strings.Length && HasList() && List().Sound()
      ensures e == StringError(Rows(), List().wData, index)
    {
      if index == 0 {
        return OK;
      }
      if strings[index].None? {
        return DefinitionError(NullObject, 0, StringObject, index, 0, 0, 0);
      }
      var list := List();
      var row := strings[index].value;
      for n := 0 to list.GetCharCount()
        invariant RowError(row, list.wData, 0, index) == RowError(row, list.wData, n, index)
      {
        var found := FindInRow(row, list.wData[n]);
        if found.None? {
          return DefinitionError(MissingLanguage, list.wData[n], StringObject, index, 0, 0, 0);
        }
      }
      e := OK;
    }
  }
}
