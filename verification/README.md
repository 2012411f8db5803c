# Employee and company stores

A model of the in-memory store layer of a small Spring Boot REST service that
keeps employees and companies. Each store is a repository holding an ordered
list, seeded when the bean is created, and a service layered on it:

- the **employee store** lists, pages (1-based), looks up by id (first match),
  appends, removes, filters by gender ignoring case, and applies partial
  updates in which a null field leaves the stored value alone;
- the **company store** lists, pages, looks up and appends companies, empties
  a company's embedded employee list, returns that list (or null when the
  company is missing), and applies partial updates in which a present
  `employees` list replaces the whole list.

Layout, one Dafny module per Java package or shared concern:

| file | module | models |
|---|---|---|
| `wrappers.dfy` | `Wrappers` | `Option` for null / `Optional`, `Result` for a call that may throw |
| `sequences.dfy` | `Sequences` | `stream().filter(p).findFirst()`, `filter(p).collect(toList())`, `List.remove(Object)` |
| `paging.dfy` | `Paging` | the repositories' `findAll(page, pageSize)` slice, `subList` failures included |
| `model.dfy` | `Model` | the `Employee` and `Company` records; `toLowerCase` |
| `repository.dfy` | `Repository` | classes `EmployeeRepository` and `CompanyRepository`, with their seed data |
| `service.dfy` | `Service` | classes `EmployeeService` and `CompanyService`, the patch records and the merge |

The repositories are classes whose `seq` field is the Java `ArrayList`;
`save`, `delete` and the seeding methods reassign it. The services are
classes holding their repository (the injected bean). Java's in-place
update through setters on the object `findById` returned becomes replacing
the list element at the position of the first id match, which is where that
object sits. Patch bodies are records with `Option` fields standing for
Java's nullable fields.

Choices where the code does not say one thing:

- `getAll(page, pageSize)` in both services calls `findAll(PageRequest.of(page, pageSize))`,
  which the in-memory repositories do not offer. The model gives the services
  the repositories' own `findAll(Integer, Integer)`, with its 1-based formula
  `from = (page - 1) * pageSize`, `to = min(from + pageSize, size)`.
- `EmployeeService.update` ends with `return employeeRepository.save(employee)`,
  but `save` returns nothing; had it appended, the store would hold the record
  twice. The model follows `CompanyService.update`: the stored record is
  changed in place and returned, and nothing is appended.
- A page that starts past the end of the list is a failure (`subList` throws), not
  an empty page; a page that starts exactly at the end is empty. With a page size
  of 0 every page is the empty one, and a negative page size always fails. The
  model follows the code: it does not clamp such a page to an empty one.
- `List.remove(Object)` compares by reference, since `Employee` defines no
  `equals`. The model compares values. For the only caller, `EmployeeService.delete`,
  the two agree: the object removed is the first record with the id, and no
  earlier element can equal it (`Service.FirstIdMatchIsFirstOccurrence`).

## Model

| member | source | states |
|---|---|---|
| `Repository.SeedEmployees` | src/main/java/com/thoughtworks/springbootemployee/repository/EmployeeRepository.java:16-23 | five seed records, ids 0, 1, 2, 3, 4 in that order, every gender "Male" |
| `Repository.EmployeeRepository.constructor` | src/main/java/com/thoughtworks/springbootemployee/repository/EmployeeRepository.java:14-23 | a new repository holds exactly the seed records |
| `Repository.EmployeeRepository.AddEmployees` | src/main/java/com/thoughtworks/springbootemployee/repository/EmployeeRepository.java:16-23 | the seed records are appended, in order, after whatever is stored |
| `Repository.EmployeeRepository.FindAll` | src/main/java/com/thoughtworks/springbootemployee/repository/EmployeeRepository.java:25-27 | the whole list in insertion order; reads only |
| `Repository.EmployeeRepository.FindPage` | src/main/java/com/thoughtworks/springbootemployee/repository/EmployeeRepository.java:29-33 | with a positive page size: failure exactly when page <= 0 or from > size; a negative page size always fails and a zero one gives an empty page; otherwise min(pageSize, size - from) records, the store's records from `from` on, in store order |
| `Paging.Page` | src/main/java/com/thoughtworks/springbootemployee/repository/EmployeeRepository.java:29-33 | subList(from, min(from + pageSize, size)): an out-of-bounds failure exactly when from < 0, an illegal-range failure when 0 <= from and from > to, each carrying both indices; otherwise to - from elements, element k being s[from + k] |
| `Paging.PageDefined` | src/main/java/com/thoughtworks/springbootemployee/repository/EmployeeRepository.java:29-33 | a page exists exactly when pageSize = 0, or pageSize > 0, page >= 1 and from <= size |
| `Paging.PageSpec` | src/main/java/com/thoughtworks/springbootemployee/repository/CompanyRepository.java:35-39 | the failure condition, the length and the contents of a page, as both repositories' findAll(page, pageSize) deliver them |
| `Paging.FirstPageIsAll` | src/main/java/com/thoughtworks/springbootemployee/repository/EmployeeRepository.java:29-33 | page 1 with a page size at least the list's length is the whole list |
| `Paging.PagesTile` | src/main/java/com/thoughtworks/springbootemployee/repository/EmployeeRepository.java:29-33 | pages 1 to n read back to back give the first min(n * pageSize, size) elements: pages neither overlap nor leave gaps |
| `Repository.EmployeeRepository.FindById` | src/main/java/com/thoughtworks/springbootemployee/repository/EmployeeRepository.java:35-39 | absent exactly when no record has the id; otherwise the first record with that id |
| `Sequences.FirstIndex` | src/main/java/com/thoughtworks/springbootemployee/repository/EmployeeRepository.java:36-38 | filter then findFirst: None exactly when no element passes; otherwise the position of the first element that passes |
| `Sequences.FirstIndexIs` | src/main/java/com/thoughtworks/springbootemployee/repository/CompanyRepository.java:41-45 | the first match is unique: any position that is the first match is the one found |
| `Repository.EmployeeRepository.Save` | src/main/java/com/thoughtworks/springbootemployee/repository/EmployeeRepository.java:41-43 | the store becomes old + [record]: one longer, earlier records unchanged, duplicate ids accepted |
| `Repository.EmployeeRepository.Delete` | src/main/java/com/thoughtworks/springbootemployee/repository/EmployeeRepository.java:45-47 | removes the first element equal to the record and only it (order of the rest kept, length one less); unchanged when absent; the multiset loses one copy |
| `Sequences.RemoveAt` | src/main/java/com/thoughtworks/springbootemployee/repository/EmployeeRepository.java:45-47 | removing a position: one shorter, elements before it in place, elements after it shifted down by one, one copy fewer in the multiset |
| `Repository.EmployeeRepository.FindByGender` | src/main/java/com/thoughtworks/springbootemployee/repository/EmployeeRepository.java:49-53 | the records whose gender equals the query ignoring case, in store order and with every copy: exactly the store filtered by the gender test; each is a stored record, every matching stored record is present |
| `Sequences.Filter` | src/main/java/com/thoughtworks/springbootemployee/repository/EmployeeRepository.java:50-52 | filter then collect: a sub-multiset of the input, holding exactly the input's elements that pass |
| `Sequences.FilterAppend` | src/main/java/com/thoughtworks/springbootemployee/repository/EmployeeRepository.java:50-52 | filtering a concatenation is concatenating the filtered parts: relative order is kept |
| `Sequences.FilterKeepsAll` | src/main/java/com/thoughtworks/springbootemployee/repository/EmployeeRepository.java:50-52 | when every element passes, the result is the input itself, in order |
| `Sequences.FilterCongruent` | src/main/java/com/thoughtworks/springbootemployee/repository/EmployeeRepository.java:50-52 | two tests agreeing on every element select the same list |
| `Repository.FindByGenderIgnoresCase` | src/main/java/com/thoughtworks/springbootemployee/repository/EmployeeRepository.java:51 | gender queries that lower-case alike ("MALE", "male", "Male") select the same records |
| `Model.GenderIs` | src/main/java/com/thoughtworks/springbootemployee/repository/EmployeeRepository.java:51 | the findByGender test holds of a record exactly when its gender and the query have the same length and agree at every position once lower-cased |
| `Model.Lower` | src/main/java/com/thoughtworks/springbootemployee/repository/EmployeeRepository.java:51 | toLowerCase keeps the length and lower-cases each character on its own (ASCII letters) |
| `Model.LowerIdempotent` | src/main/java/com/thoughtworks/springbootemployee/repository/EmployeeRepository.java:51 | lower-casing twice equals lower-casing once |
| `Repository.SeededSecondPage` | src/main/java/com/thoughtworks/springbootemployee/repository/EmployeeRepository.java:29-33 | on the seeded store, page 2 of size 3 holds the records with ids 3 and 4 |
| `Repository.SeededMaleFilter` | src/main/java/com/thoughtworks/springbootemployee/repository/EmployeeRepository.java:49-53 | on the seeded store, filtering by "male" returns all five records in order |
| `Repository.SeedCompanies` | src/main/java/com/thoughtworks/springbootemployee/repository/CompanyRepository.java:16-29 | two seed companies: id 0 "spring", headcount 3, employees 10, 11, 12; id 1 "boot", headcount 2, employees 13, 14 |
| `Repository.CompanyRepository.constructor` | src/main/java/com/thoughtworks/springbootemployee/repository/CompanyRepository.java:14-29 | a new repository holds exactly the two seed companies |
| `Repository.CompanyRepository.AddCompanies` | src/main/java/com/thoughtworks/springbootemployee/repository/CompanyRepository.java:16-29 | the seed companies are appended, in order, after whatever is stored |
| `Repository.CompanyRepository.FindAll` | src/main/java/com/thoughtworks/springbootemployee/repository/CompanyRepository.java:31-33 | the whole list in insertion order; reads only |
| `Repository.CompanyRepository.FindPage` | src/main/java/com/thoughtworks/springbootemployee/repository/CompanyRepository.java:35-39 | with a positive page size: failure exactly when page <= 0 or from > size; a negative page size always fails and a zero one gives an empty page; otherwise at most pageSize companies, the store's from `from` on, in order |
| `Repository.CompanyRepository.FindById` | src/main/java/com/thoughtworks/springbootemployee/repository/CompanyRepository.java:41-45 | absent exactly when no company has the id; otherwise the first company with that id |
| `Repository.CompanyRepository.Save` | src/main/java/com/thoughtworks/springbootemployee/repository/CompanyRepository.java:47-49 | the store becomes old + [company]; earlier companies unchanged |
| `Service.EmployeeService.constructor` | src/main/java/com/thoughtworks/springbootemployee/service/EmployeeService.java:14-15 | the service works on the repository it is given |
| `Service.EmployeeService.GetAll` | src/main/java/com/thoughtworks/springbootemployee/service/EmployeeService.java:17-19 | every stored record, in insertion order |
| `Service.EmployeeService.GetPage` | src/main/java/com/thoughtworks/springbootemployee/service/EmployeeService.java:21-23 | the repository's 1-based page: failure exactly when page <= 0 or from > size (positive page size), always failure for a negative page size, an empty page for a zero one; otherwise min(pageSize, size - from) records, record k being the stored record at from + k |
| `Service.EmployeeService.Get` | src/main/java/com/thoughtworks/springbootemployee/service/EmployeeService.java:25-27 | null (None) exactly when no record has the id; otherwise the first stored record with that id |
| `Service.EmployeeService.Create` | src/main/java/com/thoughtworks/springbootemployee/service/EmployeeService.java:29-32 | appends the record and returns it unchanged; when no earlier record had its id, get(id) returns it |
| `Sequences.FirstIndexAppend` | src/main/java/com/thoughtworks/springbootemployee/service/EmployeeService.java:29-32 | appending does not move an existing first match; without one, the new element is the first match exactly when it passes |
| `Service.EmployeeService.Delete` | src/main/java/com/thoughtworks/springbootemployee/service/EmployeeService.java:34-37 | removes exactly the first record with the id when there is one; otherwise the store is unchanged |
| `Service.FirstIdMatchIsFirstOccurrence` | src/main/java/com/thoughtworks/springbootemployee/service/EmployeeService.java:35-36 | the record findById returns is the first element equal to itself, so remove takes out that position |
| `Service.DeleteRemovesId` | src/main/java/com/thoughtworks/springbootemployee/service/EmployeeService.java:34-37 | with unique ids, no record with the id remains after delete |
| `Service.EmployeeService.Update` | src/main/java/com/thoughtworks/springbootemployee/service/EmployeeService.java:39-59 | missing id: None, store unchanged; otherwise the first record with the id becomes its merge with the patch, no other record changes, the merged record is returned and get(id) now returns it |
| `Service.MergeEmployee` | src/main/java/com/thoughtworks/springbootemployee/service/EmployeeService.java:46-57 | the merge never changes the id |
| `Service.MergeEmployeeFields` | src/main/java/com/thoughtworks/springbootemployee/service/EmployeeService.java:46-57 | name, age, gender and salary each take the patch's value when present and keep the stored one when null |
| `Service.MergeEmployeeIdempotent` | src/main/java/com/thoughtworks/springbootemployee/service/EmployeeService.java:46-57 | applying a patch twice gives the record applying it once gives |
| `Sequences.FirstIndexReplace` | src/main/java/com/thoughtworks/springbootemployee/service/EmployeeService.java:40-57 | replacing the first match by a record that still matches keeps it the first match: the updated record stays the one get finds |
| `Service.SeededEmployeeNameUpdate` | src/test/java/com/thoughtworks/springbootemployee/controller/EmployeeControllerTest.java:172-187 | patching only the name of seed record 1 gives id 1, the new name, age 19, "Male", salary 0 |
| `Service.EmployeeService.GetByGender` | src/main/java/com/thoughtworks/springbootemployee/service/EmployeeService.java:61-63 | exactly the store filtered by the gender test: the matching records in store order, every copy kept |
| `Service.CompanyService.constructor` | src/main/java/com/thoughtworks/springbootemployee/service/CompanyService.java:16-17 | the service works on the repository it is given |
| `Service.CompanyService.GetAll` | src/main/java/com/thoughtworks/springbootemployee/service/CompanyService.java:19-21 | every stored company, in insertion order |
| `Service.CompanyService.GetPage` | src/main/java/com/thoughtworks/springbootemployee/service/CompanyService.java:23-25 | the repository's 1-based page: failure exactly when page <= 0 or from > size (positive page size), always failure for a negative page size, an empty page for a zero one; otherwise min(pageSize, size - from) companies, company k being the stored company at from + k |
| `Service.CompanyService.Get` | src/main/java/com/thoughtworks/springbootemployee/service/CompanyService.java:27-29 | null (None) exactly when no company has the id; otherwise the first stored company with that id |
| `Service.CompanyService.Create` | src/main/java/com/thoughtworks/springbootemployee/service/CompanyService.java:31-34 | appends the company and returns it unchanged, with no headcount check; when no earlier company had its id, get(id) returns it |
| `Service.CompanyService.DeleteEmployeesInCompany` | src/main/java/com/thoughtworks/springbootemployee/service/CompanyService.java:36-39 | existing id: the first such company's employees become [], its id, name and headcount and all other companies unchanged, and getEmployees(id) is []; missing id: store unchanged |
| `Service.CompanyService.Update` | src/main/java/com/thoughtworks/springbootemployee/service/CompanyService.java:41-58 | missing id: None, store unchanged; otherwise the first company with the id becomes its merge with the patch, no other company changes, the merged company is returned and get(id) now returns it |
| `Service.MergeCompany` | src/main/java/com/thoughtworks/springbootemployee/service/CompanyService.java:48-57 | the merge never changes the id |
| `Service.MergeCompanyFields` | src/main/java/com/thoughtworks/springbootemployee/service/CompanyService.java:48-57 | name and headcount take the patch's value when present, a present employee list replaces the whole list, absent fields keep the stored value |
| `Service.MergeCompanyIdempotent` | src/main/java/com/thoughtworks/springbootemployee/service/CompanyService.java:48-57 | applying a patch twice gives the company applying it once gives |
| `Service.SeededCompanyNameUpdate` | src/test/java/com/thoughtworks/springbootemployee/controller/CompanyControllerTest.java:180-199 | patching only the name of seed company 1 keeps headcount 2 and employees 13, 14 |
| `Service.CompanyService.GetEmployees` | src/main/java/com/thoughtworks/springbootemployee/service/CompanyService.java:60-66 | null (None) exactly when no company has the id; otherwise the first such company's employee list, in order |

## Left out

- The HTTP controllers (`controller/*.java`): routing and status codes only, no logic of their own.
- The parking-boy resource (`model/ParkingBoy.java`, `service/ParkingBoyService.java`, `repository/ParkingBoyRepository.java`): a pass-through to a JPA repository whose persistence is not part of this model.
- The JPA entity classes (`entity/*.java`): data shapes with no behaviour.
- Spring's `PageRequest` and `Page`: their 0-based paging is not modelled; the services use the repositories' 1-based slice (see above).
- Repository.EmployeeRepository.FindPage: 32-bit `int` overflow of `(page - 1) * pageSize` and `from + pageSize` is not modelled; integers are unbounded.
- Repository.CompanyRepository.FindPage: the same overflow is not modelled.
- Null in stored records or arguments: a stored record with a null id or gender makes the Java lookups throw `NullPointerException`, and a null `employees` list reaches callers of `getEmployees`; the model's records always have every field.
- Model.Lower: lower-cases ASCII letters only; `String.toLowerCase` follows Unicode and the default locale.
- Aliasing: `findAll` hands out the live list and `subList` a view of it, and when one object is saved twice, an update changes that one object, so the change shows at both positions, where the model replaces only the first; the model returns values, so changes made through such references are not captured.
- Repository.EmployeeRepository.Delete: compares by value where Java compares references; the two differ when the record passed is not stored, or when an earlier stored record is a different object with equal fields. `EmployeeService.delete` passes the first record with its id, so no earlier record can equal it (`Service.FirstIdMatchIsFirstOccurrence`).
- Bean wiring (`@Autowired`, `@PostConstruct`): the services receive their repository as a constructor argument, and each repository's constructor runs its seeding method.
- Concurrency: the lists are unsynchronised and used from one thread at a time; the model is sequential.
