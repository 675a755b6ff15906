/** Values shared by the employee store and the payroll engine. */
module Common {

  /** The three employee types. The type selects the payroll rules and decides who may supervise. */
  datatype Role = Employee | Manager | Salesperson

  datatype Option<T> = None | Some(value: T)

  /** Why an operation was refused; one constructor per distinct exception message. */
  datatype Reason =
    | EmployeeNotFound          // no employee with the requested id
    | InvalidDateFormat         // a join date that fails the date pattern
    | EmployeeCannotSupervise   // a supervisor whose type is Employee
    | AlreadyManaged            // a new subordinate that already has a supervisor
    | HasSubordinates           // deleting an employee that still has subordinates
    | HasSupervisor             // deleting an employee that has a supervisor
    | AlreadyHasSupervisor      // adding a supervisor to an employee that has one
    | NoSupervisor              // removing the supervisor of an employee that has none
    | StartAfterEnd             // years of work asked for a start date after the end date

  /** The kind of exception thrown: the web framework's NotFound, BadRequest and
      Conflict exceptions, or a plain error. */
  datatype Error =
    | NotFound(reason: Reason)
    | BadRequest(reason: Reason)
    | Conflict(reason: Reason)
    | Plain(reason: Reason)

  /** The outcome of an operation that may throw. */
  datatype Result<T> = Ok(value: T) | Err(error: Error)
}
