/**
 * The record types the placement analytics work on: a student (candidate)
 * and a company (organization), as the application's type declarations
 * define them, plus the three-valued placement estimate.
 */
module Types {

  datatype Option<T> = None | Some(value: T)

  /** A candidate. `cgpa` and `package` are exact reals (the source's JS numbers). */
  datatype Student = Student(
    id: string,
    name: string,
    branch: string,
    cgpa: real,
    skills: seq<string>,
    projects: int,
    internships: int,
    placed: bool,
    companyId: Option<string>,
    package: Option<real>,
    resumeText: Option<string>)

  datatype TrendPoint = TrendPoint(year: int, package: real)

  /** A hiring organization. */
  datatype Company = Company(
    id: string,
    name: string,
    minCgpa: real,
    offeredRole: string,
    package: real,
    hires: int,
    arrivalDate: string,
    rounds: int,
    requiredSkills: seq<string>,
    salaryTrend: seq<TrendPoint>)

  datatype PlacementProbability = High | Medium | Low

  /** `s.package || 0` and `s.package ?? 0`: a missing package reads as 0. */
  function PackageOr0(s: Student): real
  {
    match s.package
    case None => 0.0
    case Some(v) => v
  }

  /** JavaScript truthiness of `s.package`: present and not zero. */
  predicate HasPackage(s: Student)
  {
    s.package.Some? && s.package.value != 0.0
  }
}
