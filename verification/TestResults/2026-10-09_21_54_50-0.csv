TestResult.DisplayName,TestResult.Outcome,TestResult.Duration,TestResult.ResourceCount,RandomSeed
Migrations.Migrate (correctness),Passed,00:00:00.5955858,279033,1
