TestResult.DisplayName,TestResult.Outcome,TestResult.Duration,TestResult.ResourceCount,RandomSeed
Migrations.Migrate (correctness),Passed,00:00:00.4009922,247338,3
