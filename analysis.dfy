/** The steps of the grain analysis between the extraction of the connected
    components and the tracing of the boundary: the two component counts that
    are reported, the elimination of border grains, the choice of the first
    remaining grain and the bounds of the cell space it is traced in. */
module Analysis {
  import opened Geometry
  import opened BorderElimination

  /** The condition under which no boundary can be traced. */
  datatype AnalysisError = EmptyResult

  datatype Result<T> = Success(value: T) | Failure(error: AnalysisError)

  /** What the boundary tracer is given: one grain and the margin-extended
      bounds of the Khalimsky space it is traced in. */
  datatype BoundaryInput = BoundaryInput(grain: DigitalObject, space: Domain)

  /** objects[0], as the analysis indexes it: only defined on a non-empty vector. */
  function FirstObjectAsWritten(objects: seq<DigitalObject>): (o: DigitalObject)
    requires |objects| > 0
    ensures o in objects
  {
    objects[0]
  }

  /** A single grain that touches the border of a 10 x 10 image is the whole
      input, and no grain survives: the index 0 taken after the elimination is
      out of range. */
  lemma EliminationCanLeaveNothing()
    ensures |Interior([DigitalObject({Point(0, 4)})], Domain(Point(0, 0), Point(9, 9)))| == 0
  {
    var grain := DigitalObject({Point(0, 4)});
    var d := Domain(Point(0, 0), Point(9, 9));
    assert OnBorder(Point(0, 4), d) && Point(0, 4) in grain.points;
    assert Interior([grain], d) == Interior([], d);
  }

  /** The grain handed to the boundary tracer, with the cell-space bounds: the
      first survivor of the elimination, or EmptyResult when none is left. A
      grain handed on comes from the input and touches no border line, and the
      open box of its cell space holds exactly the points of the domain. */
  function PrepareBoundary(components: seq<DigitalObject>, d: Domain): (r: Result<BoundaryInput>)
    ensures r.Success? ==> r.value.grain in components && !TouchesBorder(r.value.grain, d)
    ensures r.Success? ==> forall p :: InDomain(p, d) <==> StrictlyInside(p, r.value.space)
  {
    var survivors := Interior(components, d);
    if |survivors| == 0 then Failure(EmptyResult)
    else Success(BoundaryInput(FirstObjectAsWritten(survivors), KSpaceBounds(d)))
  }

  /** All points of every component lie in the image domain. */
  predicate WithinDomain(components: seq<DigitalObject>, d: Domain) {
    forall i, p :: 0 <= i < |components| && p in components[i].points ==> InDomain(p, d)
  }

  /** The boundary can be prepared exactly when some component touches no
      border line, and EmptyResult is reported otherwise. On success the grain
      is the first such component and every component before it touches the
      border; the cell space is the domain grown by one on every side; and when
      the components lie in the domain, every point of the grain lies strictly
      inside the domain and strictly inside the cell space. */
  lemma PrepareBoundaryCorrect(components: seq<DigitalObject>, d: Domain)
    ensures PrepareBoundary(components, d).Success?
        <==> exists i :: 0 <= i < |components| && !TouchesBorder(components[i], d)
    ensures PrepareBoundary(components, d).Success? ==>
      var b := PrepareBoundary(components, d).value;
      && b.space == Domain(Point(d.lower.x - 1, d.lower.y - 1), Point(d.upper.x + 1, d.upper.y + 1))
      && exists i :: (0 <= i < |components| && components[i] == b.grain
                      && !TouchesBorder(b.grain, d)
                      && forall j :: 0 <= j < i ==> TouchesBorder(components[j], d))
    ensures PrepareBoundary(components, d).Success? && WithinDomain(components, d) ==>
      forall p :: p in PrepareBoundary(components, d).value.grain.points ==>
        StrictlyInside(p, d) && StrictlyInside(p, PrepareBoundary(components, d).value.space)
  {
    var survivors := Interior(components, d);
    if survivors == [] {
      if i :| 0 <= i < |components| && !TouchesBorder(components[i], d) {
        InteriorMultiset(components, d, components[i]);
        assert false;
      }
    } else {
      InteriorHead(components, d);
      var g := survivors[0];
      var i :| 0 <= i < |components| && components[i] == g && !TouchesBorder(g, d)
               && forall j :: 0 <= j < i ==> TouchesBorder(components[j], d);
      if WithinDomain(components, d) {
        forall p | p in g.points
          ensures StrictlyInside(p, d) && StrictlyInside(p, KSpaceBounds(d))
        {
          assert InDomain(p, d);
          DomainInsideKSpace(d, p);
        }
      }
    }
  }

  /** The report of one run: the component counts printed before and after
      the elimination, and the outcome of preparing the first grain. */
  datatype Report = Report(before: nat, after: nat, boundary: Result<BoundaryInput>)

  /** The steps of the analysis from the connected components to the input of
      the boundary tracer: the components are stored in a vector, counted,
      cleared of border grains, counted again, and the first one left is taken
      with the cell-space bounds; an empty vector yields EmptyResult. */
  method AnalyzeComponents(components: seq<DigitalObject>, d: Domain) returns (r: Report)
    ensures r.before == |components|
    ensures r.before - r.after == BorderCount(components, d)
    ensures r.after == |Interior(components, d)|
    ensures r.boundary == PrepareBoundary(components, d)
  {
    var objects := new ComponentVector.FromComponents(components);
    var before := objects.Size();
    objects.EliminateBorderGrains(d);
    var after := objects.Size();
    var boundary: Result<BoundaryInput>;
    if after == 0 {
      boundary := Failure(EmptyResult);
    } else {
      var first := objects.data[0];
      boundary := Success(BoundaryInput(first, KSpaceBounds(d)));
    }
    r := Report(before, after, boundary);
  }
}
