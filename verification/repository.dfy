/**
 * The in-memory repositories: repository/EmployeeRepository.java and
 * repository/CompanyRepository.java. Each holds an ordered list that the
 * bean's @PostConstruct method seeds, appends to on save and (for
 * employees) removes from on delete; the lookups are stream filters.
 */
module Repository {
  import opened Wrappers
  import opened Sequences
  import opened Paging
  import opened Model

  /** The five employees addEmployees seeds: ids 0 to 4 in order, all "Male". */
  function SeedEmployees(): (r: seq<Employee>)
    ensures |r| == 5 && Ids(r) == [0, 1, 2, 3, 4]
    ensures forall k :: 0 <= k < |r| ==> r[k].gender == "Male"
  {
    [ Employee(0, "Xiaoming", 20, "Male", 0),
      Employee(1, "Xiaohong", 19, "Male", 0),
      Employee(2, "Xiaozhi", 15, "Male", 0),
      Employee(3, "Xiaogang", 16, "Male", 0),
      Employee(4, "Xiaoxia", 15, "Male", 0) ]
  }

  /**
   * The two companies addCompanies seeds: "spring" (id 0, headcount 3,
   * employees 10, 11, 12) and "boot" (id 1, headcount 2, employees 13, 14).
   */
  function SeedCompanies(): (r: seq<Company>)
    ensures |r| == 2
    ensures r[0].id == 0 && r[0].companyName == "spring" && r[0].employeeNumber == 3
    ensures Ids(r[0].employees) == [10, 11, 12]
    ensures r[1].id == 1 && r[1].companyName == "boot" && r[1].employeeNumber == 2
    ensures Ids(r[1].employees) == [13, 14]
  {
    var employeesInSpring := [
      Employee(10, "spring1", 20, "Male", 1000),
      Employee(11, "spring2", 19, "Male", 2000),
      Employee(12, "spring3", 15, "Male", 3000) ];
    var employeesInBoot := [
      Employee(13, "boot1", 16, "Male", 4000),
      Employee(14, "boot2", 15, "Male", 5000) ];
    [ Company(0, "spring", 3, employeesInSpring),
      Company(1, "boot", 2, employeesInBoot) ]
  }

  class EmployeeRepository {
    var employees: seq<Employee>

    /** The bean as the container hands it out: an empty list, then addEmployees. */
    constructor ()
      ensures employees == SeedEmployees()
    {
      employees := [];
      new;
      AddEmployees();
    }

    /** addEmployees: appends the five seed records, in order. */
    method AddEmployees()
      modifies this
      ensures employees == old(employees) + SeedEmployees()
    {
      employees := employees + SeedEmployees();
    }

    /** findAll(): the whole list, in insertion order. */
    function FindAll(): (r: seq<Employee>)
      reads this
      ensures r == employees
    {
      employees
    }

    /**
     * findAll(page, pageSize): the slice of 1-based page `page`. With a positive
     * page size it fails exactly when page <= 0 or the page starts past the end.
     */
    function FindPage(page: int, pageSize: int): (r: Result<seq<Employee>, PageError>)
      reads this
      ensures pageSize > 0 ==> (r.Failure? <==> page <= 0 || FromIndex(page, pageSize) > |employees|)
      ensures pageSize < 0 ==> r.Failure?
      ensures pageSize == 0 ==> r == Success([])
      ensures r.Success? && pageSize > 0 ==> |r.value| == Min(pageSize, |employees| - FromIndex(page, pageSize))
      ensures r.Success? ==> 0 <= FromIndex(page, pageSize) && FromIndex(page, pageSize) + |r.value| <= |employees|
      ensures r.Success? ==> forall k :: 0 <= k < |r.value| ==> r.value[k] == employees[FromIndex(page, pageSize) + k]
    {
      PageSpec(employees, page, pageSize);
      Page(employees, page, pageSize)
    }

    /** findById: the first record with the id, absent exactly when no record has it. */
    function FindById(id: int): (r: Option<Employee>)
      reads this
      ensures r.None? <==> forall k :: 0 <= k < |employees| ==> employees[k].id != id
      ensures r.Some? ==> exists k :: IsFirst(employees, EmployeeIdIs(id), k) && r.value == employees[k]
    {
      match FirstIndex(employees, EmployeeIdIs(id))
      case None => None
      case Some(k) => Some(employees[k])
    }

    /** save: appends the record; a duplicate id is accepted. */
    method Save(employee: Employee)
      modifies this
      ensures employees == old(employees) + [employee]
    {
      employees := employees + [employee];
    }

    /**
     * delete: List.remove(Object) takes out the first element equal to
     * `employee` and nothing else; when there is none the list is unchanged.
     */
    method Delete(employee: Employee)
      modifies this
      ensures match old(FirstIndex(employees, EqualTo(employee)))
        case None => employees == old(employees)
        case Some(k) => employees == RemoveAt(old(employees), k)
      ensures multiset(employees) == old(multiset(employees)) - multiset{employee}
    {
      match FirstIndex(employees, EqualTo(employee))
      case None =>
        assert employee !in employees;
      case Some(k) =>
        employees := RemoveAt(employees, k);
    }

    /** findByGender: the records whose gender equals `gender` ignoring case, in list order. */
    function FindByGender(gender: string): (r: seq<Employee>)
      reads this
      ensures r == Filter(employees, GenderIs(gender))
      // Corollaries of Filter's contract, spelled out for callers:
      ensures forall k :: 0 <= k < |r| ==> r[k] in employees && Lower(r[k].gender) == Lower(gender)
      ensures forall k :: 0 <= k < |employees| && Lower(employees[k].gender) == Lower(gender) ==> employees[k] in r
    {
      Filter(employees, GenderIs(gender))
    }
  }

  class CompanyRepository {
    var companies: seq<Company>

    /** The bean as the container hands it out: an empty list, then addCompanies. */
    constructor ()
      ensures companies == SeedCompanies()
    {
      companies := [];
      new;
      AddCompanies();
    }

    /** addCompanies: appends the two seed companies, in order. */
    method AddCompanies()
      modifies this
      ensures companies == old(companies) + SeedCompanies()
    {
      companies := companies + SeedCompanies();
    }

    /** findAll(): the whole list, in insertion order. */
    function FindAll(): (r: seq<Company>)
      reads this
      ensures r == companies
    {
      companies
    }

    /**
     * findAll(page, pageSize): the slice of 1-based page `page`. With a positive
     * page size it fails exactly when page <= 0 or the page starts past the end.
     */
    function FindPage(page: int, pageSize: int): (r: Result<seq<Company>, PageError>)
      reads this
      ensures pageSize > 0 ==> (r.Failure? <==> page <= 0 || FromIndex(page, pageSize) > |companies|)
      ensures pageSize < 0 ==> r.Failure?
      ensures pageSize == 0 ==> r == Success([])
      ensures r.Success? && pageSize > 0 ==> |r.value| == Min(pageSize, |companies| - FromIndex(page, pageSize))
      ensures r.Success? ==> 0 <= FromIndex(page, pageSize) && FromIndex(page, pageSize) + |r.value| <= |companies|
      ensures r.Success? ==> forall k :: 0 <= k < |r.value| ==> r.value[k] == companies[FromIndex(page, pageSize) + k]
    {
      PageSpec(companies, page, pageSize);
      Page(companies, page, pageSize)
    }

    /** findById: the first company with the id, absent exactly when no company has it. */
    function FindById(id: int): (r: Option<Company>)
      reads this
      ensures r.None? <==> forall k :: 0 <= k < |companies| ==> companies[k].id != id
      ensures r.Some? ==> exists k :: IsFirst(companies, CompanyIdIs(id), k) && r.value == companies[k]
    {
      match FirstIndex(companies, CompanyIdIs(id))
      case None => None
      case Some(k) => Some(companies[k])
    }

    /** save: appends the company; a duplicate id is accepted. */
    method Save(company: Company)
      modifies this
      ensures companies == old(companies) + [company]
    {
      companies := companies + [company];
    }
  }

  /** Filtering by gender ignores case: queries that lower-case alike select the same records. */
  lemma FindByGenderIgnoresCase(s: seq<Employee>, gender: string, other: string)
    requires Lower(gender) == Lower(other)
    ensures Filter(s, GenderIs(gender)) == Filter(s, GenderIs(other))
  {
    FilterCongruent(s, GenderIs(gender), GenderIs(other));
  }

  /** On the seeded store, page 2 of size 3 holds the records with ids 3 and 4. */
  lemma SeededSecondPage()
    ensures Page(SeedEmployees(), 2, 3).Success?
    ensures Ids(Page(SeedEmployees(), 2, 3).value) == [3, 4]
  {
    PageSpec(SeedEmployees(), 2, 3);
  }

  /** On the seeded store, filtering by "male" returns all five records in order. */
  lemma SeededMaleFilter()
    ensures Filter(SeedEmployees(), GenderIs("male")) == SeedEmployees()
  {
    var s := SeedEmployees();
    assert Lower("Male") == Lower("male");
    FilterKeepsAll(s, GenderIs("male"));
  }
}
