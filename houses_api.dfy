/** `GET /api/houses`: the distinct truthy house roles of the mentees table,
    in ascending order. */
module HousesApi {
  import opened Wrappers
  import opened Records
  import opened Ordering

  /** A row contributes `h` to the houses: its role is set and non-empty. */
  predicate HasHouse(row: MenteeRow, h: string)
  {
    row.houseRole == Some(h) && h != ""
  }

  /** `get_houses`: collects the truthy roles into a set, then sorts it. The
      result holds exactly the roles some row carries, never the empty string,
      each once, in strictly ascending order. */
  method GetHouses(rows: seq<MenteeRow>) returns (houses: seq<string>)
    ensures forall h :: h in houses <==> exists row :: row in rows && HasHouse(row, h)
    ensures "" !in houses
    ensures forall i, j :: 0 <= i < j < |houses| ==> StrLess(houses[i], houses[j])
  {
    var found: set<string> := {};
    for i := 0 to |rows|
      invariant forall h :: h in found <==> exists row :: row in rows[..i] && HasHouse(row, h)
    {
      assert rows[..i + 1] == rows[..i] + [rows[i]];
      if Truthy(rows[i].houseRole) {
        found := found + {rows[i].houseRole.value};
      }
      forall h ensures h in found <==> exists row :: row in rows[..i + 1] && HasHouse(row, h) {
        if h in found && !(exists row :: row in rows[..i] && HasHouse(row, h)) {
          assert HasHouse(rows[i], h);
        }
      }
    }
    assert rows[..|rows|] == rows;
    houses := SortedList(found);
  }

  /** `sorted(list(s))` for a set of strings: every element once, ascending. */
  method SortedList(s: set<string>) returns (r: seq<string>)
    ensures forall h :: h in r <==> h in s
    ensures forall i, j :: 0 <= i < j < |r| ==> StrLess(r[i], r[j])
  {
    r := [];
    var rest := s;
    while rest != {}
      invariant forall h :: h in s <==> h in r || h in rest
      invariant forall i, j :: 0 <= i < j < |r| ==> StrLess(r[i], r[j])
      invariant forall i, h :: 0 <= i < |r| && h in rest ==> StrLess(r[i], h)
      decreases rest
    {
      var m := Least(rest);
      r := r + [m];
      rest := rest - {m};
    }
  }

  /** The least string of a non-empty set. */
  method Least(s: set<string>) returns (m: string)
    requires s != {}
    ensures m in s && forall h :: h in s && h != m ==> StrLess(m, h)
  {
    m :| m in s;
    var rest := s - {m};
    while rest != {}
      invariant m in s && rest <= s && m !in rest
      invariant forall h :: h in s && h !in rest && h != m ==> StrLess(m, h)
      decreases rest
    {
      var h :| h in rest;
      StrLessTotal(h, m);
      if StrLess(h, m) {
        forall g | g in s && g !in rest && g != m ensures StrLess(h, g) {
          StrLessTransitive(h, m, g);
        }
        m := h;
      }
      rest := rest - {h};
    }
  }
}
