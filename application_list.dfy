/** What the admin's application list shows besides the applications
    themselves: the display name of a department id and the count line. */
module ApplicationList {
  import opened JsString
  import Departments

  /** The display names the list knows; the two payload departments are not
      among them. */
  const DisplayNames: map<string, string> := map[
    "power-systems" := "Power Systems",
    "communication-systems" := "Communication Systems",
    "onboard-computers" := "Onboard Computers",
    "attitude-determination-control" := "Attitude Determination & Control"
  ]

  /** `formatDepartment(deptId)`: `deptMap[deptId] || deptId`. */
  function FormatDepartment(deptId: string): (r: string)
    ensures deptId in DisplayNames ==> r == DisplayNames[deptId]
    ensures deptId !in DisplayNames ==> r == deptId
  {
    if deptId in DisplayNames && DisplayNames[deptId] != "" then DisplayNames[deptId] else deptId
  }

  /** A display name is never its own id, so an id is shown raw exactly when
      the table does not know it. */
  lemma ShownRawIffUnknown(deptId: string)
    ensures FormatDepartment(deptId) == deptId <==> deptId !in DisplayNames
  {
    if deptId in DisplayNames {
      assert DisplayNames[deptId][0] != deptId[0] || |DisplayNames[deptId]| != |deptId|;
    }
  }

  /** The catalogue's payload departments have no display name and are shown
      by their raw ids; the other four are renamed. */
  lemma CatalogueDisplay()
    ensures FormatDepartment("payload") == "payload"
    ensures FormatDepartment("data-processing") == "data-processing"
    ensures forall d :: d in Departments.Catalogue ==>
      (d.id in DisplayNames <==> d.id != "payload" && d.id != "data-processing")
  {
    ShownRawIffUnknown("payload");
    ShownRawIffUnknown("data-processing");
  }

  const EmptyMessage := "No applications submitted yet."

  /** The line above the list of `count` applications. */
  function Summary(count: nat): (r: string)
  {
    if count == 0 then EmptyMessage
    else "Showing " + NatToDecimal(count) + " application" + (if count != 1 then "s" else "")
  }

  /** The count line states the count, and the noun is singular exactly when
      there is one application. */
  lemma SummaryStatesCount(count: nat)
    requires count > 0
    ensures count == 1 ==> Summary(count) == "Showing 1 application"
    ensures count != 1 ==> Summary(count) == "Showing " + NatToDecimal(count) + " applications"
    ensures DecimalValue(NatToDecimal(count)) == count
    ensures Summary(count)[|Summary(count)| - 1] == 's' <==> count != 1
  {
    DecimalRoundTrip(count);
    if count == 1 {
      assert NatToDecimal(1) == "1";
    }
  }

  /** An empty list shows the empty-list message and no count line. */
  lemma EmptyListMessage()
    ensures Summary(0) == EmptyMessage
    ensures forall n: nat :: n > 0 ==> Summary(n) != EmptyMessage
  {
    forall n: nat | n > 0
      ensures Summary(n) != EmptyMessage
    {
      assert Summary(n)[0] == 'S';
    }
  }
}
