/**
 * The part of a FreeRTOS semaphore the firmware relies on: a count between
 * zero and a ceiling fixed at creation. A binary semaphore is the case
 * whose ceiling is one.
 */
module Semaphores {

  class Semaphore {
    var count: nat
    const maxCount: nat

    ghost predicate Valid()
      reads this
    {
      count <= maxCount
    }

    /** xSemaphoreCreateCounting(maxCount, initialCount); xSemaphoreCreateBinary() is (1, 0). */
    constructor (maxCount: nat, initialCount: nat)
      requires initialCount <= maxCount
      ensures Valid()
      ensures this.maxCount == maxCount && count == initialCount
    {
      this.maxCount := maxCount;
      count := initialCount;
    }

    /** xSemaphoreGive: fails, changing nothing, when the count is at the ceiling. */
    method Give() returns (given: bool)
      requires Valid()
      modifies this
      ensures Valid()
      ensures given <==> old(count) < maxCount
      ensures count == if given then old(count) + 1 else old(count)
    {
      given := count < maxCount;
      if given {
        count := count + 1;
      }
    }

    /** xSemaphoreTake with no waiting: fails, changing nothing, when the count is zero. */
    method Take() returns (taken: bool)
      requires Valid()
      modifies this
      ensures Valid()
      ensures taken <==> old(count) > 0
      ensures count == if taken then old(count) - 1 else old(count)
    {
      taken := count > 0;
      if taken {
        count := count - 1;
      }
    }
  }
}
