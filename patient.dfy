/** A patient of the hospital, known only by a student number. */
module Patients {
  import opened Json

  /** The one key of a patient's JSON object. */
  const StudentNumberKey: string := "Student number"

  /**
   * A patient. Any Java int is accepted as a student number: the
   * "8 digits" the constructor asks of its callers is not checked.
   * A datatype value has no mutators, so the number never changes.
   */
  datatype Patient = Patient(studentNum: Int32) {

    /** The student number; it alone determines the patient. */
    function GetStudentNum(): (n: Int32)
      ensures Patient(n) == this
    {
      studentNum
    }

    /** The JSON object of a patient: its only key maps to the student number. */
    function ToJson(): (json: JsonObject)
      ensures json.Keys == {StudentNumberKey}
      ensures json[StudentNumberKey] == JInt(GetStudentNum() as int)
    {
      map[StudentNumberKey := JInt(studentNum as int)]
    }
  }

  /** The getter returns exactly what the constructor was given. */
  lemma GetStudentNumReturnsConstructorArgument(studentNum: Int32)
    ensures Patient(studentNum).GetStudentNum() == studentNum
  {
  }
}
