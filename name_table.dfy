/**
 * The string interning table a navigator keeps (`System.Xml.NameTable`) and
 * the `GetOrAdd` helper that the navigator's name getters go through.
 * Strings are compared by value; the reference identity of an interned
 * string is not modelled.
 */
module NameTables {
  import opened Wrappers

  class NameTable {
    var names: set<string>

    constructor ()
      ensures names == {}
    {
      names := {};
    }

    /** `XmlNameTable.Get`: the stored entry equal to `s`, or null. */
    method Get(s: string) returns (r: Option<string>)
      ensures r.Some? <==> s in names
      ensures r.Some? ==> r.value == s
    {
      r := if s in names then Some(s) else None;
    }

    /** `XmlNameTable.Add`: stores `s` (if absent) and returns the stored entry. */
    method Add(s: string) returns (r: string)
      modifies this
      ensures r == s
      ensures names == old(names) + {s}
    {
      names := names + {s};
      r := s;
    }
  }

  /**
   * Returns the table's entry for `s`, adding it first when missing. The
   * result equals `s`, the table then holds `s`, and a string already in the
   * table leaves the table as it was (so a second call changes nothing).
   */
  method GetOrAdd(table: NameTable, s: string) returns (r: string)
    modifies table
    ensures r == s
    ensures s in table.names
    ensures table.names == old(table.names) + {s}
    ensures s in old(table.names) ==> table.names == old(table.names)
  {
    var found := table.Get(s);
    if found.None? {
      r := table.Add(s);
      return;
    }
    r := found.value;
  }
}
