/** The department catalogue: a constant table of the satellite subsystems an
    applicant can join, and the search by id that every page uses. */
module Departments {
  import opened Wrappers

  datatype Department = Department(
    id: string,
    name: string,
    description: string,
    icon: string,
    skills: seq<string>,
    knowledge: seq<string>)

  const Catalogue: seq<Department> := [
    Department(
      "power-systems",
      "Power System",
      "The foundation that provides energy to all satellite components through solar collection, storage, and distribution.",
      "zap",
      ["Electrical Engineering", "Circuit Design", "Battery Management"],
      ["Power Distribution", "Energy Storage", "Solar Panels"]),
    Department(
      "communication-systems",
      "Communication Subsystem",
      "Enables the satellite to transmit and receive data between space and Earth ground stations.",
      "radio",
      ["RF Engineering", "Antenna Design", "Signal Processing"],
      ["Satellite Communication", "Modulation Techniques", "Data Transmission"]),
    Department(
      "onboard-computers",
      "On-Board Computers",
      "The central nervous system that controls all satellite operations and processes data.",
      "cpu",
      ["Embedded Systems", "C/C++", "Python"],
      ["Microcontrollers", "Real-Time OS", "Data Handling"]),
    Department(
      "attitude-determination-control",
      "GNC (Guidance, Navigation & Control)",
      "Manages the satellite's orientation and position in orbit to maintain stability and pointing accuracy.",
      "compass",
      ["Control Systems", "MATLAB/Simulink", "Attitude Determination"],
      ["Reaction Wheels", "Orbital Mechanics", "Orientation Control"]),
    Department(
      "payload",
      "Payload Subsystem",
      "The scientific heart of our mission focused on pollution detection and monitoring from orbit.",
      "zap",
      ["Sensor Integration", "Environmental Science", "Optical Systems"],
      ["Spectrometry", "Gas Detection", "Instrument Calibration"]),
    Department(
      "data-processing",
      "Payload Data Processing",
      "Transforms raw satellite data into meaningful environmental insights and visualizations.",
      "cpu",
      ["Data Analysis", "Algorithm Development", "Machine Learning"],
      ["Atmospheric Models", "Image Processing", "Data Visualization"])
  ]

  /** The icon names the catalogue draws from. */
  const Icons: set<string> := {"zap", "radio", "cpu", "compass"}

  /** Position of the first department of `ds` whose id is `id`, or `|ds|`
      when there is none: the search `Array.find` performs. */
  function FirstWithId(ds: seq<Department>, id: string): (i: nat)
    ensures i <= |ds|
    ensures forall j :: 0 <= j < i ==> ds[j].id != id
    ensures i < |ds| ==> ds[i].id == id
  {
    if ds == [] then 0
    else if ds[0].id == id then 0
    else 1 + FirstWithId(ds[1..], id)
  }

  /** `getDepartmentById(id)`; `None` is `undefined`. */
  function GetDepartmentById(id: string): (r: Option<Department>)
    ensures r.Some? ==> r.value in Catalogue && r.value.id == id
    ensures r.None? <==> forall d :: d in Catalogue ==> d.id != id
    ensures r.Some? ==>
      exists i :: 0 <= i < |Catalogue| && Catalogue[i] == r.value &&
        forall j :: 0 <= j < i ==> Catalogue[j].id != id
  {
    var i := FirstWithId(Catalogue, id);
    if i < |Catalogue| then Some(Catalogue[i]) else None
  }

  predicate DistinctIds(ds: seq<Department>) {
    forall i, j :: 0 <= i < j < |ds| ==> ds[i].id != ds[j].id
  }

  /** The catalogue's shape: six entries with distinct ids, three skills and
      three knowledge items each, and a known icon. */
  lemma CatalogueShape()
    ensures |Catalogue| == 6
    ensures DistinctIds(Catalogue)
    ensures forall d :: d in Catalogue ==>
      |d.skills| == 3 && |d.knowledge| == 3 && d.icon in Icons
  {
    var ids := seq(|Catalogue|, k requires 0 <= k < |Catalogue| => Catalogue[k].id);
    assert ids[0][0] == 'p' && ids[1][0] == 'c' && ids[2][0] == 'o' && ids[3][0] == 'a';
    assert ids[4][0] == 'p' && ids[5][0] == 'd';
    assert |ids[0]| != |ids[4]|;
  }

  /** Every entry is found by its own id. */
  lemma GetDepartmentByOwnId(d: Department)
    requires d in Catalogue
    ensures GetDepartmentById(d.id) == Some(d)
  {
    CatalogueShape();
    var k :| 0 <= k < |Catalogue| && Catalogue[k] == d;
    var i := FirstWithId(Catalogue, d.id);
    assert i <= k;
  }

  /** No department has the empty id, so an empty route parameter finds nothing. */
  lemma NoDepartmentForEmptyId()
    ensures GetDepartmentById("") == None
  {
    forall d | d in Catalogue
      ensures d.id != ""
    {
    }
  }
}
