/** `GET /columns`: the fixed vocabulary of record fields. */
module Columns {

  /** The column names in the order the endpoint lists them. */
  function ColumnNames(): (names: seq<string>)
    ensures |names| == 15
    ensures forall i, j :: 0 <= i < j < |names| ==> names[i] != names[j]
    ensures names[..9] == ["ID", "Author", "Title", "Publisher", "Year", "Pages", "Language", "Size", "Extension"]
    ensures names[9..14] == ["Mirror_1", "Mirror_2", "Mirror_3", "Mirror_4", "Mirror_5"]
    ensures names[14] == "Edit"
  {
    var names := ["ID", "Author", "Title", "Publisher", "Year", "Pages", "Language",
                  "Size", "Extension", "Mirror_1", "Mirror_2", "Mirror_3", "Mirror_4", "Mirror_5", "Edit"];
    assert forall i, j :: 0 <= i < j < |names| ==> names[i] != names[j] by {
      forall i, j | 0 <= i < j < |names| ensures names[i] != names[j] {
        assert |names[i]| != |names[j]| || names[i][0] != names[j][0] || names[i][|names[i]| - 1] != names[j][|names[j]| - 1];
      }
    }
    names
  }

  /** The vocabulary has fifteen distinct names, so as a set it has fifteen elements. */
  lemma {:induction false} ColumnSetSize()
    ensures |set i | 0 <= i < |ColumnNames()| :: ColumnNames()[i]| == 15
  {
    var names := ColumnNames();
    DistinctSetSize(names);
  }

  /** A duplicate-free sequence has as many distinct elements as entries. */
  lemma {:induction false} DistinctSetSize(s: seq<string>)
    requires forall i, j :: 0 <= i < j < |s| ==> s[i] != s[j]
    ensures |set i | 0 <= i < |s| :: s[i]| == |s|
  {
    if |s| > 0 {
      var init := s[..|s| - 1];
      DistinctSetSize(init);
      var a := set i | 0 <= i < |init| :: init[i];
      var b := set i | 0 <= i < |s| :: s[i];
      assert b == a + {s[|s| - 1]};
      assert s[|s| - 1] !in a;
    }
  }
}
