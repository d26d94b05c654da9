/**
 * The two string operations the route calculator relies on: Java's
 * `String.split(",")` (trailing empty pieces dropped) and `String.join`.
 */
module Strings {

  /** The pieces of `s` between commas, empty pieces included; there is always at least one. */
  function Fields(s: string): (r: seq<string>)
    ensures |r| >= 1
    ensures forall i :: 0 <= i < |r| ==> ',' !in r[i]
    ensures ',' !in s ==> r == [s]
    ensures ',' in s ==> |r| >= 2
  {
    if s == [] then [""]
    else
      var rest := Fields(s[1..]);
      if s[0] == ',' then [""] + rest
      else
        assert ',' !in s ==> ',' !in s[1..] && s == [s[0]] + s[1..];
        [[s[0]] + rest[0]] + rest[1..]
  }

  /** `parts` without its trailing run of empty strings. */
  function DropTrailingEmpty(parts: seq<string>): (r: seq<string>)
    ensures r <= parts
    ensures r == [] || r[|r| - 1] != ""
    ensures forall i :: |r| <= i < |parts| ==> parts[i] == ""
  {
    if parts == [] then []
    else if parts[|parts| - 1] == "" then DropTrailingEmpty(parts[..|parts| - 1])
    else parts
  }

  /**
   * `s.split(",")` in Java: a string without a comma is its only piece;
   * otherwise the pieces between commas with the trailing empty ones removed
   * (so "a,b," gives ["a", "b"] and "," gives []).
   */
  function Split(s: string): (r: seq<string>)
    ensures forall i :: 0 <= i < |r| ==> ',' !in r[i]
  {
    if ',' !in s then [s] else DropTrailingEmpty(Fields(s))
  }

  /** `String.join(sep, parts)`: the parts with `sep` between neighbours; "" for no parts. */
  function Join(parts: seq<string>, sep: string): (r: string)
    ensures parts != [] ==> parts[0] <= r
  {
    if parts == [] then ""
    else if |parts| == 1 then parts[0]
    else parts[0] + sep + Join(parts[1..], sep)
  }

  /** `s` with every comma replaced by `sep`. */
  function ReplaceCommas(s: string, sep: string): (r: string)
    ensures ',' !in s ==> r == s
  {
    if s == [] then []
    else (if s[0] == ',' then sep else [s[0]]) + ReplaceCommas(s[1..], sep)
  }

  /** Replacing commas by commas changes nothing. */
  lemma {:induction false} ReplaceCommasByComma(s: string)
    ensures ReplaceCommas(s, ",") == s
  {
    if s != [] {
      ReplaceCommasByComma(s[1..]);
      assert s == [s[0]] + s[1..];
    }
  }

  /** The last piece between commas is empty exactly when `s` is empty or ends with a comma. */
  lemma {:induction false} FieldsLastEmpty(s: string)
    ensures Fields(s)[|Fields(s)| - 1] == "" <==> (s == [] || s[|s| - 1] == ',')
  {
    if s != [] {
      FieldsLastEmpty(s[1..]);
      var rest := Fields(s[1..]);
      if s[0] != ',' && |rest| == 1 {
        assert Fields(s) == [[s[0]] + rest[0]];
        if s[1..] != [] {
          assert s[|s| - 1] == s[1..][|s[1..]| - 1];
          assert ',' !in s[1..];
        }
      } else if s[1..] != [] {
        assert s[|s| - 1] == s[1..][|s[1..]| - 1];
      }
    }
  }

  /**
   * Joining the comma-separated pieces of `s` with `sep` is `s` with each comma
   * replaced by `sep`.
   */
  lemma {:induction false} JoinFields(s: string, sep: string)
    ensures Join(Fields(s), sep) == ReplaceCommas(s, sep)
  {
    if s != [] {
      JoinFields(s[1..], sep);
      var rest := Fields(s[1..]);
      if s[0] == ',' {
        assert Fields(s) == [""] + rest;
        assert (Fields(s))[1..] == rest;
      } else if |rest| == 1 {
        assert Fields(s) == [[s[0]] + rest[0]];
      } else {
        assert Fields(s)[1..] == rest[1..];
        assert Join(rest, sep) == rest[0] + sep + Join(rest[1..], sep);
      }
    }
  }

  /** The pieces of `a + "," + b` for a comma-free `a` are `a` followed by the pieces of `b`. */
  lemma {:induction false} FieldsAfterComma(a: string, b: string)
    requires ',' !in a
    ensures Fields(a + "," + b) == [a] + Fields(b)
  {
    if a == [] {
      assert a + "," + b == [','] + b;
      assert (a + "," + b)[1..] == b;
    } else {
      assert (a + "," + b)[1..] == a[1..] + "," + b;
      FieldsAfterComma(a[1..], b);
      assert [a[0]] + a[1..] == a;
    }
  }

  /** Splitting the comma-joined pieces on commas gives the pieces back. */
  lemma {:induction false} FieldsOfJoin(parts: seq<string>)
    requires |parts| >= 1
    requires forall i :: 0 <= i < |parts| ==> ',' !in parts[i]
    ensures Fields(Join(parts, ",")) == parts
  {
    if |parts| > 1 {
      FieldsOfJoin(parts[1..]);
      FieldsAfterComma(parts[0], Join(parts[1..], ","));
    }
  }

  /**
   * Round trip of the path format: joining comma-free names with commas and
   * splitting the result gives the names back, provided the last name is not
   * empty (Java drops trailing empty pieces) or there is only one name.
   */
  lemma SplitJoin(parts: seq<string>)
    requires |parts| >= 1
    requires forall i :: 0 <= i < |parts| ==> ',' !in parts[i]
    requires |parts| == 1 || parts[|parts| - 1] != ""
    ensures Split(Join(parts, ",")) == parts
  {
    FieldsOfJoin(parts);
    if |parts| > 1 {
      assert ',' in Join(parts, ",") by {
        assert Join(parts, ",") == parts[0] + "," + Join(parts[1..], ",");
        assert Join(parts, ",")[|parts[0]|] == ',';
      }
    }
  }

  /**
   * The other round trip: for a path string that does not end in a comma,
   * joining its pieces with commas restores it, and joining them with `sep`
   * rewrites each comma as `sep`.
   */
  lemma JoinSplit(s: string, sep: string)
    requires s == [] || s[|s| - 1] != ','
    ensures Join(Split(s), sep) == ReplaceCommas(s, sep)
    ensures Join(Split(s), ",") == s
  {
    ReplaceCommasByComma(s);
    if ',' in s {
      FieldsLastEmpty(s);
      JoinFields(s, sep);
      JoinFields(s, ",");
    }
  }

  /** Appending a comma closes the last piece and opens an empty one. */
  lemma {:induction false} FieldsAppendComma(s: string)
    ensures Fields(s + ",") == Fields(s) + [""]
  {
    if s == [] {
      assert s + "," == [','];
      assert [','][1..] == [];
    } else {
      assert (s + ",")[1..] == s[1..] + ",";
      FieldsAppendComma(s[1..]);
    }
  }

  /** A trailing comma on a non-empty path string is ignored: Java drops the empty last piece. */
  lemma SplitTrailingComma(s: string)
    requires s != []
    ensures Split(s + ",") == Split(s)
  {
    FieldsAppendComma(s);
    assert (Fields(s) + [""])[..|Fields(s)|] == Fields(s);
    assert ',' in s + "," by {
      assert (s + ",")[|s|] == ',';
    }
    if ',' !in s {
      assert DropTrailingEmpty([s]) == [s];
    }
  }
}
