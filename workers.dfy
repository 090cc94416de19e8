/** A worker record. Its fields are set once, when it is created, and never change. */
module Workers {
  /** The five values a worker carries, as a value. */
  datatype WorkerRecord = WorkerRecord(id: string, name: string, age: nat, position: string, salary: nat)

  /**
   * A worker object. The class defines no equality of its own, so two workers are
   * the same worker only when they are the same object.
   */
  class Worker {
    const id: string
    const name: string
    const age: nat
    const position: string
    const salary: nat

    constructor (id: string, name: string, age: nat, position: string, salary: nat)
      ensures this.id == id && this.name == name && this.age == age
      ensures this.position == position && this.salary == salary
    {
      this.id := id;
      this.name := name;
      this.age := age;
      this.position := position;
      this.salary := salary;
    }

    /** The worker's fields, in the order the table of workers shows them. */
    function Fields(): WorkerRecord
    {
      WorkerRecord(id, name, age, position, salary)
    }
  }
}
