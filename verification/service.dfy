/**
 * The services: service/EmployeeService.java and service/CompanyService.java.
 * Each holds its repository and layers lookups-or-null, create, delete and the
 * partial ("null means unchanged") update on top of it. In Java the update
 * finds the stored object and calls its setters; since that object is the
 * list's element at the first id match, the model replaces that element.
 */
module Service {
  import opened Wrappers
  import opened Sequences
  import opened Paging
  import opened Model
  import opened Repository

  /** The body of an employee update: a field given as null (None) is left alone. The id is never patched. */
  datatype EmployeePatch = EmployeePatch(name: Option<string>, age: Option<int>, gender: Option<string>, salary: Option<int>)

  /** The body of a company update; a present `employees` replaces the whole list. */
  datatype CompanyPatch = CompanyPatch(companyName: Option<string>, employeeNumber: Option<int>, employees: Option<seq<Employee>>)

  /** The record an employee update leaves behind: each patched field overwritten, the rest kept. */
  function MergeEmployee(e: Employee, patch: EmployeePatch): (r: Employee)
    ensures r.id == e.id
  {
    e.(name := patch.name.GetOr(e.name), age := patch.age.GetOr(e.age),
       gender := patch.gender.GetOr(e.gender), salary := patch.salary.GetOr(e.salary))
  }

  /** The record a company update leaves behind: each patched field overwritten, the rest kept. */
  function MergeCompany(c: Company, patch: CompanyPatch): (r: Company)
    ensures r.id == c.id
  {
    c.(companyName := patch.companyName.GetOr(c.companyName),
       employeeNumber := patch.employeeNumber.GetOr(c.employeeNumber),
       employees := patch.employees.GetOr(c.employees))
  }

  /** Field by field: a present patch value is taken, an absent one keeps the stored value; the id never changes. */
  lemma MergeEmployeeFields(e: Employee, patch: EmployeePatch)
    ensures MergeEmployee(e, patch).id == e.id
    ensures MergeEmployee(e, patch).name == if patch.name.Some? then patch.name.value else e.name
    ensures MergeEmployee(e, patch).age == if patch.age.Some? then patch.age.value else e.age
    ensures MergeEmployee(e, patch).gender == if patch.gender.Some? then patch.gender.value else e.gender
    ensures MergeEmployee(e, patch).salary == if patch.salary.Some? then patch.salary.value else e.salary
  {
  }

  /** Applying the same employee patch twice gives the record applying it once gives. */
  lemma MergeEmployeeIdempotent(e: Employee, patch: EmployeePatch)
    ensures MergeEmployee(MergeEmployee(e, patch), patch) == MergeEmployee(e, patch)
  {
  }

  /** Field by field for companies: a present `employees` replaces the list, absent fields keep their values. */
  lemma MergeCompanyFields(c: Company, patch: CompanyPatch)
    ensures MergeCompany(c, patch).id == c.id
    ensures MergeCompany(c, patch).companyName == if patch.companyName.Some? then patch.companyName.value else c.companyName
    ensures MergeCompany(c, patch).employeeNumber == if patch.employeeNumber.Some? then patch.employeeNumber.value else c.employeeNumber
    ensures MergeCompany(c, patch).employees == if patch.employees.Some? then patch.employees.value else c.employees
  {
  }

  /** Applying the same company patch twice gives the record applying it once gives. */
  lemma MergeCompanyIdempotent(c: Company, patch: CompanyPatch)
    ensures MergeCompany(MergeCompany(c, patch), patch) == MergeCompany(c, patch)
  {
  }

  /**
   * The record findById returns is the first one with its id, so List.remove
   * on it takes out that very position: no earlier element equals it.
   */
  lemma FirstIdMatchIsFirstOccurrence(s: seq<Employee>, id: int, k: int)
    requires IsFirst(s, EmployeeIdIs(id), k)
    ensures FirstIndex(s, EqualTo(s[k])) == Some(k)
  {
    assert IsFirst(s, EqualTo(s[k]), k);
    FirstIndexIs(s, EqualTo(s[k]), k);
  }

  /** When ids are unique, deleting the record with an id leaves no record with that id. */
  lemma DeleteRemovesId(s: seq<Employee>, id: int, k: int)
    requires IsFirst(s, EmployeeIdIs(id), k)
    requires forall i, j :: 0 <= i < j < |s| ==> s[i].id != s[j].id
    ensures forall j :: 0 <= j < |s| - 1 ==> RemoveAt(s, k)[j].id != id
  {
    forall j | 0 <= j < |s| - 1
      ensures RemoveAt(s, k)[j].id != id
    {
      if j >= k {
        assert RemoveAt(s, k)[j] == s[j + 1];
        assert s[k].id != s[j + 1].id;
      }
    }
  }

  class EmployeeService {
    const employeeRepository: EmployeeRepository

    constructor (employeeRepository: EmployeeRepository)
      ensures this.employeeRepository == employeeRepository
    {
      this.employeeRepository := employeeRepository;
    }

    /** getAll(): every record, in insertion order. */
    function GetAll(): (r: seq<Employee>)
      reads employeeRepository
      ensures r == employeeRepository.employees
    {
      employeeRepository.FindAll()
    }

    /**
     * getAll(page, pageSize): the repository's 1-based page. With a positive
     * page size it fails exactly when page <= 0 or the page starts past the end,
     * and holds Min(pageSize, size - from) records.
     */
    function GetPage(page: int, pageSize: int): (r: Result<seq<Employee>, PageError>)
      reads employeeRepository
      ensures pageSize > 0 ==> (r.Failure? <==> page <= 0 || FromIndex(page, pageSize) > |employeeRepository.employees|)
      ensures pageSize < 0 ==> r.Failure?
      ensures pageSize == 0 ==> r == Success([])
      ensures r.Success? && pageSize > 0 ==> |r.value| == Min(pageSize, |employeeRepository.employees| - FromIndex(page, pageSize))
      ensures r.Success? ==> 0 <= FromIndex(page, pageSize) && FromIndex(page, pageSize) + |r.value| <= |employeeRepository.employees|
      ensures r.Success? ==> forall k :: 0 <= k < |r.value| ==> r.value[k] == employeeRepository.employees[FromIndex(page, pageSize) + k]
    {
      employeeRepository.FindPage(page, pageSize)
    }

    /** get: the first record with the id, or null (None) when there is none. */
    function Get(id: int): (r: Option<Employee>)
      reads employeeRepository
      ensures r.None? <==> forall k :: 0 <= k < |employeeRepository.employees| ==> employeeRepository.employees[k].id != id
      ensures r.Some? ==>
        exists k :: IsFirst(employeeRepository.employees, EmployeeIdIs(id), k) && r.value == employeeRepository.employees[k]
    {
      employeeRepository.FindById(id)
    }

    /** create: appends the record and hands it back unchanged; when its id was new, get finds it. */
    method Create(employee: Employee) returns (r: Employee)
      modifies employeeRepository
      ensures r == employee
      ensures employeeRepository.employees == old(employeeRepository.employees) + [employee]
      ensures (forall k :: 0 <= k < |old(employeeRepository.employees)| ==> old(employeeRepository.employees)[k].id != employee.id)
        ==> Get(employee.id) == Some(employee)
    {
      employeeRepository.Save(employee);
      FirstIndexAppend(old(employeeRepository.employees), employee, EmployeeIdIs(employee.id));
      r := employee;
    }

    /** delete: removes the first record with the id when there is one; otherwise nothing happens. */
    method Delete(id: int)
      modifies employeeRepository
      ensures match old(FirstIndex(employeeRepository.employees, EmployeeIdIs(id)))
        case None => employeeRepository.employees == old(employeeRepository.employees)
        case Some(k) => employeeRepository.employees == RemoveAt(old(employeeRepository.employees), k)
    {
      var found := employeeRepository.FindById(id);
      if found.Some? {
        ghost var k :| IsFirst(employeeRepository.employees, EmployeeIdIs(id), k) && found.value == employeeRepository.employees[k];
        FirstIndexIs(employeeRepository.employees, EmployeeIdIs(id), k);
        FirstIdMatchIsFirstOccurrence(employeeRepository.employees, id, k);
        employeeRepository.Delete(found.value);
      }
    }

    /**
     * update: on a missing id returns null (None) and changes nothing. Otherwise
     * overwrites the patched fields of the first record with the id, leaves every
     * other record alone, and returns the updated record, which get now finds.
     */
    method Update(id: int, patch: EmployeePatch) returns (r: Option<Employee>)
      modifies employeeRepository
      ensures match old(FirstIndex(employeeRepository.employees, EmployeeIdIs(id)))
        case None => r.None? && employeeRepository.employees == old(employeeRepository.employees)
        case Some(k) =>
          && r == Some(MergeEmployee(old(employeeRepository.employees[k]), patch))
          && employeeRepository.employees == old(employeeRepository.employees)[k := r.value]
          && Get(id) == r
    {
      var found := FirstIndex(employeeRepository.employees, EmployeeIdIs(id));
      if found.None? {
        return None;
      }
      var k := found.value;
      var employee := employeeRepository.employees[k];
      if patch.name.Some? {
        employee := employee.(name := patch.name.value);
      }
      if patch.age.Some? {
        employee := employee.(age := patch.age.value);
      }
      if patch.gender.Some? {
        employee := employee.(gender := patch.gender.value);
      }
      if patch.salary.Some? {
        employee := employee.(salary := patch.salary.value);
      }
      FirstIndexReplace(employeeRepository.employees, EmployeeIdIs(id), k, employee);
      employeeRepository.employees := employeeRepository.employees[k := employee];
      r := Some(employee);
    }

    /** getByGender: the records whose gender equals `gender` ignoring case, in store order. */
    function GetByGender(gender: string): (r: seq<Employee>)
      reads employeeRepository
      ensures r == Filter(employeeRepository.employees, GenderIs(gender))
      // Corollaries of Filter's contract, spelled out for callers:
      ensures forall k :: 0 <= k < |r| ==> r[k] in employeeRepository.employees && Lower(r[k].gender) == Lower(gender)
      ensures forall k :: 0 <= k < |employeeRepository.employees| ==>
        (Lower(employeeRepository.employees[k].gender) == Lower(gender) ==> employeeRepository.employees[k] in r)
    {
      employeeRepository.FindByGender(gender)
    }
  }

  class CompanyService {
    const companyRepository: CompanyRepository

    constructor (companyRepository: CompanyRepository)
      ensures this.companyRepository == companyRepository
    {
      this.companyRepository := companyRepository;
    }

    /** getAll(): every company, in insertion order. */
    function GetAll(): (r: seq<Company>)
      reads companyRepository
      ensures r == companyRepository.companies
    {
      companyRepository.FindAll()
    }

    /**
     * getAll(page, pageSize): the repository's 1-based page. With a positive
     * page size it fails exactly when page <= 0 or the page starts past the end,
     * and holds Min(pageSize, size - from) companies.
     */
    function GetPage(page: int, pageSize: int): (r: Result<seq<Company>, PageError>)
      reads companyRepository
      ensures pageSize > 0 ==> (r.Failure? <==> page <= 0 || FromIndex(page, pageSize) > |companyRepository.companies|)
      ensures pageSize < 0 ==> r.Failure?
      ensures pageSize == 0 ==> r == Success([])
      ensures r.Success? && pageSize > 0 ==> |r.value| == Min(pageSize, |companyRepository.companies| - FromIndex(page, pageSize))
      ensures r.Success? ==> 0 <= FromIndex(page, pageSize) && FromIndex(page, pageSize) + |r.value| <= |companyRepository.companies|
      ensures r.Success? ==> forall k :: 0 <= k < |r.value| ==> r.value[k] == companyRepository.companies[FromIndex(page, pageSize) + k]
    {
      companyRepository.FindPage(page, pageSize)
    }

    /** get: the first company with the id, or null (None) when there is none. */
    function Get(id: int): (r: Option<Company>)
      reads companyRepository
      ensures r.None? <==> forall k :: 0 <= k < |companyRepository.companies| ==> companyRepository.companies[k].id != id
      ensures r.Some? ==>
        exists k :: IsFirst(companyRepository.companies, CompanyIdIs(id), k) && r.value == companyRepository.companies[k]
    {
      companyRepository.FindById(id)
    }

    /**
     * create: appends the company and hands it back unchanged, whatever its
     * headcount and list; when its id was new, get finds it.
     */
    method Create(company: Company) returns (r: Company)
      modifies companyRepository
      ensures r == company
      ensures companyRepository.companies == old(companyRepository.companies) + [company]
      ensures (forall k :: 0 <= k < |old(companyRepository.companies)| ==> old(companyRepository.companies)[k].id != company.id)
        ==> Get(company.id) == Some(company)
    {
      companyRepository.Save(company);
      FirstIndexAppend(old(companyRepository.companies), company, CompanyIdIs(company.id));
      r := company;
    }

    /**
     * deleteEmployeesInCompany: empties the employee list of the first company
     * with the id, keeping its id, name and headcount and every other company;
     * on a missing id nothing happens.
     */
    method DeleteEmployeesInCompany(id: int)
      modifies companyRepository
      ensures match old(FirstIndex(companyRepository.companies, CompanyIdIs(id)))
        case None => companyRepository.companies == old(companyRepository.companies)
        case Some(k) =>
          && companyRepository.companies == old(companyRepository.companies)[k := old(companyRepository.companies[k]).(employees := [])]
          && GetEmployees(id) == Some([])
    {
      var found := FirstIndex(companyRepository.companies, CompanyIdIs(id));
      if found.Some? {
        var k := found.value;
        var company := companyRepository.companies[k].(employees := []);
        FirstIndexReplace(companyRepository.companies, CompanyIdIs(id), k, company);
        companyRepository.companies := companyRepository.companies[k := company];
      }
    }

    /**
     * update: on a missing id returns null (None) and changes nothing. Otherwise
     * overwrites the patched fields of the first company with the id (a present
     * list replaces the whole list), leaves every other company alone, and
     * returns the updated company, which get now finds.
     */
    method Update(id: int, patch: CompanyPatch) returns (r: Option<Company>)
      modifies companyRepository
      ensures match old(FirstIndex(companyRepository.companies, CompanyIdIs(id)))
        case None => r.None? && companyRepository.companies == old(companyRepository.companies)
        case Some(k) =>
          && r == Some(MergeCompany(old(companyRepository.companies[k]), patch))
          && companyRepository.companies == old(companyRepository.companies)[k := r.value]
          && Get(id) == r
    {
      var found := FirstIndex(companyRepository.companies, CompanyIdIs(id));
      if found.None? {
        return None;
      }
      var k := found.value;
      var company := companyRepository.companies[k];
      if patch.companyName.Some? {
        company := company.(companyName := patch.companyName.value);
      }
      if patch.employeeNumber.Some? {
        company := company.(employeeNumber := patch.employeeNumber.value);
      }
      if patch.employees.Some? {
        company := company.(employees := patch.employees.value);
      }
      FirstIndexReplace(companyRepository.companies, CompanyIdIs(id), k, company);
      companyRepository.companies := companyRepository.companies[k := company];
      r := Some(company);
    }

    /**
     * getEmployees: null (None) when no company has the id, which callers can
     * tell apart from a company without employees; otherwise the employee list
     * of the first company with the id, in order.
     */
    function GetEmployees(id: int): (r: Option<seq<Employee>>)
      reads companyRepository
      ensures r.None? <==> forall k :: 0 <= k < |companyRepository.companies| ==> companyRepository.companies[k].id != id
      ensures r.Some? ==>
        exists k :: IsFirst(companyRepository.companies, CompanyIdIs(id), k) && r.value == companyRepository.companies[k].employees
    {
      match companyRepository.FindById(id)
      case None => None
      case Some(company) => Some(company.employees)
    }
  }

  /** The update the employee test sends: only the name of record 1 changes; age 19, gender and salary stay. */
  lemma SeededEmployeeNameUpdate()
    ensures MergeEmployee(SeedEmployees()[1], EmployeePatch(Some("New name"), None, None, None))
      == Employee(1, "New name", 19, "Male", 0)
  {
  }

  /** The update the company test sends: only the name of company 1 changes; headcount 2 and employees 13, 14 stay. */
  lemma SeededCompanyNameUpdate()
    ensures MergeCompany(SeedCompanies()[1], CompanyPatch(Some("New name"), None, None)).companyName == "New name"
    ensures MergeCompany(SeedCompanies()[1], CompanyPatch(Some("New name"), None, None)).employeeNumber == 2
    ensures Ids(MergeCompany(SeedCompanies()[1], CompanyPatch(Some("New name"), None, None)).employees) == [13, 14]
  {
  }
}
