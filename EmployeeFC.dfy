/** FCDSEmployee of the companyAnnotatedFC TCK model: the relationship
    fields of an employee and the methods that maintain them. The team and
    HR-advisee relationships are kept on both sides (the set here, the
    manager or HR advisor field of the other employee); the project sets
    and the plain setters are one-sided. */
module EmployeeFC {
  import opened Wrappers

  /** A project, by identity (null is one of the references a set may
      hold; projects are never dereferenced here). */
  type ProjectRef = nat

  /** What the relationship methods throw. */
  datatype EmployeeException = NullPointerException

  class Employee {
    var manager: Employee?
    var hradvisor: Employee?
    /** Each set is null after its setter was given null; HashSet admits a
        null element. */
    var team: Option<set<Employee?>>
    var hradvisees: Option<set<Employee?>>
    var projects: Option<set<ProjectRef>>
    var reviewedProjects: Option<set<ProjectRef>>

    /** A new employee: empty sets, no manager and no HR advisor. */
    constructor ()
      ensures manager == null && hradvisor == null
      ensures team == Some({}) && hradvisees == Some({})
      ensures projects == Some({}) && reviewedProjects == Some({})
    {
      manager := null;
      hradvisor := null;
      team := Some({});
      hradvisees := Some({});
      projects := Some({});
      reviewedProjects := Some({});
    }

    /** `emp` is on this employee's team and has it as manager. */
    predicate Manages(emp: Employee)
      reads this, emp
    {
      team.Some? && emp in team.value && emp.manager == this
    }

    /** `emp` is among this employee's HR advisees and has it as HR
        advisor. */
    predicate Advises(emp: Employee)
      reads this, emp
    {
      hradvisees.Some? && emp in hradvisees.value && emp.hradvisor == this
    }

    /** addToTeam: `emp` joins the team and gets this employee as manager.
        A null team throws before anything changes, `emp` included; a null
        `emp` is added to the set before the throw. */
    method AddToTeam(emp: Employee?) returns (outcome: Outcome<EmployeeException>)
      modifies this, emp
      ensures old(team).None? ==> outcome == Fail(NullPointerException) && team == old(team) && manager == old(manager)
      ensures old(team).None? && emp != null ==> emp.manager == old(emp.manager)
      ensures old(team).Some? ==> team == Some(old(team).value + {emp})
      ensures old(team).Some? && emp == null ==> outcome == Fail(NullPointerException) && manager == old(manager)
      ensures old(team).Some? && emp != null ==> outcome == Pass && Manages(emp)
      ensures emp != this ==> manager == old(manager)
      ensures hradvisor == old(hradvisor) && hradvisees == old(hradvisees)
      ensures projects == old(projects) && reviewedProjects == old(reviewedProjects)
      ensures emp != null && emp != this ==>
                emp.team == old(emp.team) && emp.hradvisor == old(emp.hradvisor) && emp.hradvisees == old(emp.hradvisees)
                && emp.projects == old(emp.projects) && emp.reviewedProjects == old(emp.reviewedProjects)
    {
      if team.None? {
        return Fail(NullPointerException);
      }
      team := Some(team.value + {emp});
      if emp == null {
        return Fail(NullPointerException);
      }
      emp.manager := this;
      return Pass;
    }

    /** removeFromTeam: `emp` leaves the team and its manager becomes null,
        whether or not it was on the team. */
    method RemoveFromTeam(emp: Employee?) returns (outcome: Outcome<EmployeeException>)
      modifies this, emp
      ensures old(team).None? ==> outcome == Fail(NullPointerException) && team == old(team) && manager == old(manager)
      ensures old(team).None? && emp != null ==> emp.manager == old(emp.manager)
      ensures old(team).Some? ==> team == Some(old(team).value - {emp})
      ensures old(team).Some? && emp == null ==> outcome == Fail(NullPointerException) && manager == old(manager)
      ensures old(team).Some? && emp != null ==> outcome == Pass && emp !in team.value && emp.manager == null
      ensures emp != this ==> manager == old(manager)
      ensures hradvisor == old(hradvisor) && hradvisees == old(hradvisees)
      ensures projects == old(projects) && reviewedProjects == old(reviewedProjects)
      ensures emp != null && emp != this ==>
                emp.team == old(emp.team) && emp.hradvisor == old(emp.hradvisor) && emp.hradvisees == old(emp.hradvisees)
                && emp.projects == old(emp.projects) && emp.reviewedProjects == old(emp.reviewedProjects)
    {
      if team.None? {
        return Fail(NullPointerException);
      }
      team := Some(team.value - {emp});
      if emp == null {
        return Fail(NullPointerException);
      }
      emp.manager := null;
      return Pass;
    }

    /** addAdvisee: `emp` becomes an HR advisee and gets this employee as
        HR advisor. */
    method AddAdvisee(emp: Employee?) returns (outcome: Outcome<EmployeeException>)
      modifies this, emp
      ensures old(hradvisees).None? ==> outcome == Fail(NullPointerException) && hradvisees == old(hradvisees) && hradvisor == old(hradvisor)
      ensures old(hradvisees).None? && emp != null ==> emp.hradvisor == old(emp.hradvisor)
      ensures old(hradvisees).Some? ==> hradvisees == Some(old(hradvisees).value + {emp})
      ensures old(hradvisees).Some? && emp == null ==> outcome == Fail(NullPointerException) && hradvisor == old(hradvisor)
      ensures old(hradvisees).Some? && emp != null ==> outcome == Pass && Advises(emp)
      ensures emp != this ==> hradvisor == old(hradvisor)
      ensures manager == old(manager) && team == old(team)
      ensures projects == old(projects) && reviewedProjects == old(reviewedProjects)
      ensures emp != null && emp != this ==>
                emp.team == old(emp.team) && emp.manager == old(emp.manager) && emp.hradvisees == old(emp.hradvisees)
                && emp.projects == old(emp.projects) && emp.reviewedProjects == old(emp.reviewedProjects)
    {
      if hradvisees.None? {
        return Fail(NullPointerException);
      }
      hradvisees := Some(hradvisees.value + {emp});
      if emp == null {
        return Fail(NullPointerException);
      }
      emp.hradvisor := this;
      return Pass;
    }

    /** removeAdvisee: `emp` is no longer an HR advisee and its HR advisor
        becomes null, whether or not it was an advisee. */
    method RemoveAdvisee(emp: Employee?) returns (outcome: Outcome<EmployeeException>)
      modifies this, emp
      ensures old(hradvisees).None? ==> outcome == Fail(NullPointerException) && hradvisees == old(hradvisees) && hradvisor == old(hradvisor)
      ensures old(hradvisees).None? && emp != null ==> emp.hradvisor == old(emp.hradvisor)
      ensures old(hradvisees).Some? ==> hradvisees == Some(old(hradvisees).value - {emp})
      ensures old(hradvisees).Some? && emp == null ==> outcome == Fail(NullPointerException) && hradvisor == old(hradvisor)
      ensures old(hradvisees).Some? && emp != null ==> outcome == Pass && emp !in hradvisees.value && emp.hradvisor == null
      ensures emp != this ==> hradvisor == old(hradvisor)
      ensures manager == old(manager) && team == old(team)
      ensures projects == old(projects) && reviewedProjects == old(reviewedProjects)
      ensures emp != null && emp != this ==>
                emp.team == old(emp.team) && emp.manager == old(emp.manager) && emp.hradvisees == old(emp.hradvisees)
                && emp.projects == old(emp.projects) && emp.reviewedProjects == old(emp.reviewedProjects)
    {
      if hradvisees.None? {
        return Fail(NullPointerException);
      }
      hradvisees := Some(hradvisees.value - {emp});
      if emp == null {
        return Fail(NullPointerException);
      }
      emp.hradvisor := null;
      return Pass;
    }

    /** addProject: only the project set changes. */
    method AddProject(project: ProjectRef) returns (outcome: Outcome<EmployeeException>)
      modifies this
      ensures old(projects).None? ==> outcome == Fail(NullPointerException) && projects == old(projects)
      ensures old(projects).Some? ==> outcome == Pass && projects == Some(old(projects).value + {project})
      ensures manager == old(manager) && hradvisor == old(hradvisor) && team == old(team)
      ensures hradvisees == old(hradvisees) && reviewedProjects == old(reviewedProjects)
    {
      if projects.None? {
        return Fail(NullPointerException);
      }
      projects := Some(projects.value + {project});
      return Pass;
    }

    /** removeProject: only the project set changes. */
    method RemoveProject(project: ProjectRef) returns (outcome: Outcome<EmployeeException>)
      modifies this
      ensures old(projects).None? ==> outcome == Fail(NullPointerException) && projects == old(projects)
      ensures old(projects).Some? ==> outcome == Pass && projects == Some(old(projects).value - {project})
      ensures manager == old(manager) && hradvisor == old(hradvisor) && team == old(team)
      ensures hradvisees == old(hradvisees) && reviewedProjects == old(reviewedProjects)
    {
      if projects.None? {
        return Fail(NullPointerException);
      }
      projects := Some(projects.value - {project});
      return Pass;
    }

    /** addReviewedProjects: only the reviewed-project set changes. */
    method AddReviewedProjects(project: ProjectRef) returns (outcome: Outcome<EmployeeException>)
      modifies this
      ensures old(reviewedProjects).None? ==> outcome == Fail(NullPointerException) && reviewedProjects == old(reviewedProjects)
      ensures old(reviewedProjects).Some? ==> outcome == Pass && reviewedProjects == Some(old(reviewedProjects).value + {project})
      ensures manager == old(manager) && hradvisor == old(hradvisor) && team == old(team)
      ensures hradvisees == old(hradvisees) && projects == old(projects)
    {
      if reviewedProjects.None? {
        return Fail(NullPointerException);
      }
      reviewedProjects := Some(reviewedProjects.value + {project});
      return Pass;
    }

    /** removeReviewedProject: only the reviewed-project set changes. */
    method RemoveReviewedProject(project: ProjectRef) returns (outcome: Outcome<EmployeeException>)
      modifies this
      ensures old(reviewedProjects).None? ==> outcome == Fail(NullPointerException) && reviewedProjects == old(reviewedProjects)
      ensures old(reviewedProjects).Some? ==> outcome == Pass && reviewedProjects == Some(old(reviewedProjects).value - {project})
      ensures manager == old(manager) && hradvisor == old(hradvisor) && team == old(team)
      ensures hradvisees == old(hradvisees) && projects == old(projects)
    {
      if reviewedProjects.None? {
        return Fail(NullPointerException);
      }
      reviewedProjects := Some(reviewedProjects.value - {project});
      return Pass;
    }

    /** setTeam: a copy of the given set, or null. */
    method SetTeam(newTeam: Option<set<Employee?>>)
      modifies this
      ensures team == newTeam
      ensures manager == old(manager) && hradvisor == old(hradvisor) && hradvisees == old(hradvisees)
      ensures projects == old(projects) && reviewedProjects == old(reviewedProjects)
    {
      team := newTeam;
    }

    /** setHradvisees: a copy of the given set, or null. */
    method SetHradvisees(newAdvisees: Option<set<Employee?>>)
      modifies this
      ensures hradvisees == newAdvisees
      ensures manager == old(manager) && hradvisor == old(hradvisor) && team == old(team)
      ensures projects == old(projects) && reviewedProjects == old(reviewedProjects)
    {
      hradvisees := newAdvisees;
    }

    /** setProjects: a copy of the given set, or null. */
    method SetProjects(newProjects: Option<set<ProjectRef>>)
      modifies this
      ensures projects == newProjects
      ensures manager == old(manager) && hradvisor == old(hradvisor) && team == old(team)
      ensures hradvisees == old(hradvisees) && reviewedProjects == old(reviewedProjects)
    {
      projects := newProjects;
    }

    /** setReviewedProjects: a copy of the given set, or null. */
    method SetReviewedProjects(newReviewed: Option<set<ProjectRef>>)
      modifies this
      ensures reviewedProjects == newReviewed
      ensures manager == old(manager) && hradvisor == old(hradvisor) && team == old(team)
      ensures hradvisees == old(hradvisees) && projects == old(projects)
    {
      reviewedProjects := newReviewed;
    }

    /** setManager: one-sided; no team set changes. */
    method SetManager(newManager: Employee?)
      modifies this
      ensures manager == newManager
      ensures hradvisor == old(hradvisor) && team == old(team) && hradvisees == old(hradvisees)
      ensures projects == old(projects) && reviewedProjects == old(reviewedProjects)
    {
      manager := newManager;
    }
  }

  /** Adding an employee who is not on the team and removing it again
      leaves the team as it was, with the employee managed by nobody. */
  method AddThenRemoveFromTeam(m: Employee, emp: Employee) returns (first: Outcome<EmployeeException>, second: Outcome<EmployeeException>)
    requires m.team.Some? && emp !in m.team.value
    modifies m, emp
    ensures first == Pass && second == Pass
    ensures m.team == old(m.team) && emp.manager == null
  {
    first := m.AddToTeam(emp);
    second := m.RemoveFromTeam(emp);
    assert old(m.team).value + {emp} - {emp} == old(m.team).value;
  }

  /** The same for HR advisees. */
  method AddThenRemoveAdvisee(a: Employee, emp: Employee) returns (first: Outcome<EmployeeException>, second: Outcome<EmployeeException>)
    requires a.hradvisees.Some? && emp !in a.hradvisees.value
    modifies a, emp
    ensures first == Pass && second == Pass
    ensures a.hradvisees == old(a.hradvisees) && emp.hradvisor == null
  {
    first := a.AddAdvisee(emp);
    second := a.RemoveAdvisee(emp);
    assert old(a.hradvisees).value + {emp} - {emp} == old(a.hradvisees).value;
  }

  /** Once `emp` joins another manager's team, the old manager no longer
      manages it, though it stays in the old manager's team set: the
      relationship is kept on both sides only by the side that moves. */
  method MoveToTeam(oldManager: Employee, newManager: Employee, emp: Employee) returns (outcome: Outcome<EmployeeException>)
    requires oldManager != newManager && emp != oldManager && emp != newManager
    requires oldManager.Manages(emp) && newManager.team.Some?
    modifies newManager, emp
    ensures outcome == Pass && newManager.Manages(emp)
    ensures !oldManager.Manages(emp) && emp in oldManager.team.value
  {
    outcome := newManager.AddToTeam(emp);
  }
}
