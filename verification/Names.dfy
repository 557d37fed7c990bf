/** The validation of table and column names. */
module Names {
  import opened Outcomes

  /** How many octets UTF-8 needs for a character. */
  function Utf8Width(c: char): nat {
    if c as int <= 0x7F then 1 else if c as int <= 0x7FF then 2 else if c as int <= 0xFFFF then 3 else 4
  }

  function Utf8Length(s: string): nat {
    if s == "" then 0 else Utf8Width(s[0]) + Utf8Length(s[1..])
  }

  predicate IsAscii(s: string) { forall i :: 0 <= i < |s| ==> s[i] as int <= 0x7F }

  /** Controls up to 0x0F, DEL and the byte order mark are refused in every name. */
  predicate IsRefusedCode(c: char) { c as int <= 0x0F || c as int == 0x7F || c as int == 0xFEFF }

  predicate RefusedInTable(c: char) { c in "?,'\"\\/:)(+*%~" || IsRefusedCode(c) }

  predicate RefusedInColumn(c: char) { c in "?.,'\"\\/:)(+-*%~" || IsRefusedCode(c) }

  /** The same as character codes; a column name may hold neither dots nor hyphens on top. */
  lemma RefusedCodes(c: char)
    ensures RefusedInTable(c) <==>
            c as int < 16 || c as int in {34, 37, 39, 40, 41, 42, 43, 44, 47, 58, 63, 92, 126, 127, 65279}
    ensures RefusedInColumn(c) <==> RefusedInTable(c) || c as int == 45 || c as int == 46
  {
  }

  /** A dot may stand neither first nor after another dot. */
  predicate DotIsMisplaced(name: string, i: nat)
    requires i < |name|
  {
    name[i] == '.' && (i == 0 || name[i - 1] == '.')
  }

  lemma {:induction false} LengthIsAtLeastCount(s: string)
    ensures Utf8Length(s) >= |s|
    ensures Utf8Length(s) == |s| <==> IsAscii(s)
  {
    if s != "" {
      LengthIsAtLeastCount(s[1..]);
      if IsAscii(s[1..]) && s[0] as int <= 0x7F {
        forall i | 0 <= i < |s|
          ensures s[i] as int <= 0x7F
        {
          if i > 0 {
            assert s[i] == s[1..][i - 1];
          }
        }
      }
      if IsAscii(s) {
        forall i | 0 <= i < |s[1..]|
          ensures s[1..][i] as int <= 0x7F
        {
          assert s[1..][i] == s[i + 1];
        }
      }
    }
  }

  /**
    `TableName::new`. The check for a dot at the end compares a character's
    index with the length in octets, so it only sees the end of ASCII names.
   */
  method NewTableName(name: string) returns (r: Result<string, ErrorCode>)
    ensures r == Ok(name) || r == Err(InvalidName)
    ensures r.Ok? <==>
      && name != ""
      && (forall i :: 0 <= i < |name| ==> !RefusedInTable(name[i]))
      && name[0] != '.'
      && (forall i :: 0 < i < |name| ==> name[i - 1] != '.' || name[i] != '.')
      && (name[|name| - 1] == '.' ==> !IsAscii(name))
  {
    if name == "" {
      return Err(InvalidName);
    }
    LengthIsAtLeastCount(name);
    var prev := '\0';
    for index := 0 to |name|
      invariant index > 0 ==> prev == name[index - 1]
      invariant forall i :: 0 <= i < index ==> !RefusedInTable(name[i])
      invariant forall i :: 0 <= i < index ==> !DotIsMisplaced(name, i)
      invariant index == |name| && name[|name| - 1] == '.' ==> !IsAscii(name)
    {
      var c := name[index];
      if c == '.' {
        if index == 0 || index == Utf8Length(name) - 1 || prev == '.' {
          assert index == Utf8Length(name) - 1 ==> index == |name| - 1 && IsAscii(name);
          assert index == 0 || prev == '.' ==> DotIsMisplaced(name, index);
          return Err(InvalidName);
        }
      } else if RefusedInTable(c) {
        return Err(InvalidName);
      }
      prev := c;
    }
    assert !DotIsMisplaced(name, 0);
    forall i | 0 < i < |name|
      ensures name[i - 1] != '.' || name[i] != '.'
    {
      assert !DotIsMisplaced(name, i);
    }
    return Ok(name);
  }

  /** A trailing dot is accepted in a name that is not ASCII, and refused in one that is. */
  method TrailingDotWitness() returns (accepted: Result<string, ErrorCode>, refused: Result<string, ErrorCode>)
    ensures accepted == Ok(['a', 0xE9 as char, '.'])
    ensures refused.Err?
  {
    var name := ['a', 0xE9 as char, '.'];
    assert name[1] as int == 0xE9 && !IsAscii(name);
    accepted := NewTableName(name);
    assert IsAscii("ab.");
    refused := NewTableName("ab.");
  }

  /** `ColumnName::new`. */
  method NewColumnName(name: string) returns (r: Result<string, ErrorCode>)
    ensures r == Ok(name) || r == Err(InvalidName)
    ensures r.Ok? <==> name != "" && forall i :: 0 <= i < |name| ==> !RefusedInColumn(name[i])
  {
    if name == "" {
      return Err(InvalidName);
    }
    for index := 0 to |name|
      invariant forall i :: 0 <= i < index ==> !RefusedInColumn(name[i])
    {
      if RefusedInColumn(name[index]) {
        return Err(InvalidName);
      }
    }
    return Ok(name);
  }
}
