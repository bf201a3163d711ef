/** Cells, employee records and the scored frame the pipeline works on. */
module Table {

  /** One spreadsheet cell: a pandas null, a number, or text. */
  datatype Cell = Absent | Num(value: real) | Text(text: string)

  /** One employee row: one field per column the pipeline reads. */
  datatype Record = Record(
    id: Cell,                // Employee_ID
    experience: Cell,        // No_of_years_experience
    kpi: Cell,               // KPIs_meet >80
    rating: Cell,            // Previous_Year_Rating
    softSkills: Cell,        // Soft_Skills
    supervisorReview: Cell,  // Supervisor_Review
    jobSatisfaction: Cell,   // Job_Satisfaction
    gender: Cell,            // gender
    department: Cell         // Department
  )

  /** A row once the Performance_score column has been added to it. */
  datatype ScoredRecord = Scored(rec: Record, score: real)

  datatype Option<T> = None | Some(value: T)

  /** Failures that pandas or sklearn raise on malformed KPI values. */
  datatype Fault =
    | NonNumericKpi   // summing a text KPI within a department group
    | NonBinaryKpi    // a KPI that `astype(int)` cannot turn into a 0/1 label

  datatype Result<T> = Ok(value: T) | Err(fault: Fault)
}
